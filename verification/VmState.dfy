/** Call frames, exception handlers and the relation between the two stacks
    (src/vm/frame.c, src/vm/exc.c, src/include/jello/internal/vm_internal.h). */
module VmState {
  import opened FrameLayout

  datatype TrapCode = TypeMismatch | Bounds | NullDeref | Thrown | StackOverflow | Fuel | Limit

  function CodeNumber(c: TrapCode): int {
    match c
    case TypeMismatch => 1
    case Bounds => 2
    case NullDeref => 3
    case Thrown => 4
    case StackOverflow => 5
    case Fuel => 6
    case Limit => 7
  }

  /** Register contents; a caught trap arrives as a record of its kind and code. */
  datatype Value = Null | I32(n: int) | Ref(id: nat) | TrapRecord(isAssert: bool, code: TrapCode)

  datatype Insn =
    | Ret(a: nat)
    | Jmp(d: int)
    | JmpIf(a: nat, d: int)
    | Call(dst: nat, callee: nat, first: nat, n: nat)
    | TailCall(callee: nat, first: nat, n: nat)
    | Try(dst: nat, trapOnly: bool, d: int)
    | EndTry
    | Throw(a: nat)
    | Assert(a: nat)
    | Switch(a: nat, n: nat, d: int)
    | Case(tag: nat, d: int)
    | Plain(dst: nat, id: nat)

  datatype Func = Func(kinds: seq<Kind>, insns: seq<Insn>)

  /** `mem` is the frame's offset in the byte stack, `total` its size there; `excBase` is the height of
      the handler stack at entry. */
  datatype Frame = Frame(func: nat, pc: nat, callerDst: nat, excBase: nat, hasCaller: bool,
                         mem: nat, total: nat, regs: seq<Value>)

  datatype Handler = Handler(frameIndex: nat, catchPc: nat, dstReg: nat, trapOnly: bool)

  datatype Pending = NoExc | Exc(code: TrapCode, payload: Value)

  datatype Status = Running | Done(v: Value) | Uncaught | Panicked

  /** The `n` instructions from `first` on are the entries of a switch, and where they and the default `d` lead,
      from the end of the table, is in the code. */
  predicate TableOk(insns: seq<Insn>, first: nat, n: nat, d: int) {
    && first + n <= |insns| && 0 <= first + n + d <= |insns|
    && forall i :: first <= i < first + n ==> insns[i].Case? && 0 <= first + n + insns[i].d <= |insns|
  }

  /** How far from the end of its table a switch jumps: by the first entry with that tag, or else by `d`. */
  function Delta(insns: seq<Insn>, first: nat, n: nat, tag: int, d: int): int
    decreases n
  {
    if n == 0 || first >= |insns| then d
    else if insns[first].Case? && insns[first].tag == tag then insns[first].d
    else Delta(insns, first + 1, n - 1, tag, d)
  }

  /** It is the default or that of an entry, so what holds of them all holds of it. */
  lemma {:induction false} DeltaIsOneOf(insns: seq<Insn>, first: nat, n: nat, tag: int, d: int)
    requires first + n <= |insns|
    ensures var delta := Delta(insns, first, n, tag, d);
      delta == d || exists i :: first <= i < first + n && insns[i].Case? && insns[i].d == delta
    decreases n
  {
    if n > 0 {
      DeltaIsOneOf(insns, first + 1, n - 1, tag, d);
    }
  }

  /** The first entry with the tag decides, and the default only if no entry has it. */
  lemma {:induction false} FirstEntryDecides(insns: seq<Insn>, first: nat, n: nat, tag: int, d: int, j: nat)
    requires first + n <= |insns| && j <= n
    requires forall i :: first <= i < first + n ==> insns[i].Case?
    requires forall i :: first <= i < first + j ==> insns[i].tag != tag
    ensures j == n ==> Delta(insns, first, n, tag, d) == d
    ensures j < n && insns[first + j].tag == tag ==> Delta(insns, first, n, tag, d) == insns[first + j].d
    decreases j
  {
    if j > 0 {
      FirstEntryDecides(insns, first + 1, n - 1, tag, d, j - 1);
    }
  }

  /** What the loader and the validator check of an instruction at `pc`, and that calls fit the callee. */
  predicate InsnOk(funcs: seq<Func>, f: Func, pc: nat, ins: Insn) {
    var nregs, ninsns := |f.kinds|, |f.insns|;
    match ins
    case Ret(a) => a < nregs
    case Jmp(d) => 0 <= pc + 1 + d <= ninsns
    case JmpIf(a, d) => a < nregs && 0 <= pc + 1 + d <= ninsns
    case Call(dst, callee, first, n) =>
      dst < nregs && callee < |funcs| && first + n <= nregs && n <= |funcs[callee].kinds|
    case TailCall(callee, first, n) => callee < |funcs| && first + n <= nregs && n <= |funcs[callee].kinds|
    case Try(dst, trapOnly, d) => dst < nregs && 0 <= pc + 1 + d <= ninsns
    case EndTry => true
    case Throw(a) => a < nregs
    case Assert(a) => a < nregs
    case Switch(a, n, d) => a < nregs && TableOk(f.insns, pc + 1, n, d)
    case Case(tag, d) => true
    case Plain(dst, id) => dst < nregs
  }

  ghost predicate ProgramOk(funcs: seq<Func>) {
    forall f :: 0 <= f < |funcs| ==>
      0 < |funcs[f].kinds| <= MAX_REGS
      && forall i :: 0 <= i < |funcs[f].insns| ==> InsnOk(funcs, funcs[f], i, funcs[f].insns[i])
  }

  // ---- handlers and frames ---------------------------------------------------------------------------

  /** The first `b` handlers belong to frames below `f`, the others do not. */
  ghost predicate Splits(handlers: seq<Handler>, b: nat, f: nat) {
    && b <= |handlers|
    && (forall i :: 0 <= i < b ==> handlers[i].frameIndex < f)
    && (forall i :: b <= i < |handlers| ==> handlers[i].frameIndex >= f)
  }

  /** Handlers are sorted by frame, belong to live frames, and every frame remembers how many handlers
      the frames below it own. */
  ghost predicate HandlersOk(frames: seq<Frame>, handlers: seq<Handler>) {
    && (forall i, j :: 0 <= i < j < |handlers| ==> handlers[i].frameIndex <= handlers[j].frameIndex)
    && (forall i :: 0 <= i < |handlers| ==> handlers[i].frameIndex < |frames|)
    && (forall f :: 0 <= f < |frames| ==> Splits(handlers, frames[f].excBase, f))
  }

  function CountBelow(handlers: seq<Handler>, f: nat): (n: nat)
    ensures n <= |handlers|
    ensures f == 0 ==> n == 0
  {
    if |handlers| == 0 then 0
    else CountBelow(handlers[..|handlers| - 1], f) + (if handlers[|handlers| - 1].frameIndex < f then 1 else 0)
  }

  lemma {:induction false} SplitIsCount(handlers: seq<Handler>, b: nat, f: nat)
    requires Splits(handlers, b, f)
    ensures b == CountBelow(handlers, f)
    decreases |handlers|
  {
    if |handlers| > 0 {
      var n := |handlers| - 1;
      SplitIsCount(handlers[..n], if b > n then n else b, f);
    }
  }

  lemma {:induction false} CountMono(handlers: seq<Handler>, f: nat, f': nat)
    requires f <= f'
    ensures CountBelow(handlers, f) <= CountBelow(handlers, f')
    decreases |handlers|
  {
    if |handlers| > 0 {
      CountMono(handlers[..|handlers| - 1], f, f');
    }
  }

  lemma SplitsAreOrdered(handlers: seq<Handler>, b: nat, f: nat, b': nat, f': nat)
    requires Splits(handlers, b, f) && Splits(handlers, b', f') && f <= f'
    ensures b <= b'
  {
    SplitIsCount(handlers, b, f);
    SplitIsCount(handlers, b', f');
    CountMono(handlers, f, f');
  }

  /** In every good state `excBase` is the number of handlers owned by lower frames. */
  lemma ExcBaseCounts(frames: seq<Frame>, handlers: seq<Handler>, f: nat)
    requires HandlersOk(frames, handlers) && f < |frames|
    ensures frames[f].excBase == CountBelow(handlers, f)
  {
    SplitIsCount(handlers, frames[f].excBase, f);
  }

  lemma PushKeepsHandlers(frames: seq<Frame>, handlers: seq<Handler>, fr: Frame)
    requires HandlersOk(frames, handlers) && fr.excBase == |handlers|
    ensures HandlersOk(frames + [fr], handlers)
  {
  }

  /** Cutting the handler stack at a frame's `excBase` and the frame stack at that frame. */
  lemma PopKeepsHandlers(frames: seq<Frame>, handlers: seq<Handler>, f: nat)
    requires HandlersOk(frames, handlers) && f < |frames|
    ensures HandlersOk(frames[..f], handlers[..frames[f].excBase])
  {
    forall g | 0 <= g < f ensures Splits(handlers[..frames[f].excBase], frames[g].excBase, g) {
      SplitsAreOrdered(handlers, frames[g].excBase, g, frames[f].excBase, f);
    }
  }

  /** The same at handler `w`, keeping its frame: what catching does. */
  lemma CatchKeepsHandlers(frames: seq<Frame>, handlers: seq<Handler>, w: nat)
    requires HandlersOk(frames, handlers) && w < |handlers|
    ensures HandlersOk(frames[..handlers[w].frameIndex + 1], handlers[..w])
  {
    var n := handlers[w].frameIndex + 1;
    forall g | 0 <= g < n ensures Splits(handlers[..w], frames[g].excBase, g) {
      assert Splits(handlers, frames[g].excBase, g);
    }
  }

  /** Changing a frame without touching its `excBase`. */
  lemma UpdateKeepsHandlers(frames: seq<Frame>, handlers: seq<Handler>, f: nat, fr: Frame)
    requires HandlersOk(frames, handlers) && f < |frames| && fr.excBase == frames[f].excBase
    ensures HandlersOk(frames[f := fr], handlers)
  {
    var after := frames[f := fr];
    forall g | 0 <= g < |frames| ensures Splits(handlers, after[g].excBase, g) {
      assert Splits(handlers, frames[g].excBase, g);
    }
  }

  lemma TryKeepsHandlers(frames: seq<Frame>, handlers: seq<Handler>, h: Handler)
    requires HandlersOk(frames, handlers) && |frames| > 0 && h.frameIndex == |frames| - 1
    ensures HandlersOk(frames, handlers + [h])
  {
    forall g | 0 <= g < |frames| ensures Splits(handlers + [h], frames[g].excBase, g) {
      assert Splits(handlers, frames[g].excBase, g);
    }
  }

  lemma EndTryKeepsHandlers(frames: seq<Frame>, handlers: seq<Handler>)
    requires HandlersOk(frames, handlers) && |frames| > 0 && |handlers| > 0
    requires handlers[|handlers| - 1].frameIndex == |frames| - 1
    ensures HandlersOk(frames, handlers[..|handlers| - 1])
  {
    forall g | 0 <= g < |frames| ensures Splits(handlers[..|handlers| - 1], frames[g].excBase, g) {
      assert Splits(handlers, frames[g].excBase, g);
    }
  }

  /** Returning from the top frame removes exactly the handlers that frame owns. */
  lemma ReturnDropsOwnHandlers(frames: seq<Frame>, handlers: seq<Handler>)
    requires HandlersOk(frames, handlers) && |frames| > 0
    ensures var f := |frames| - 1;
            forall i :: 0 <= i < |handlers| ==> (i >= frames[f].excBase <==> handlers[i].frameIndex == f)
  {
    assert Splits(handlers, frames[|frames| - 1].excBase, |frames| - 1);
  }

  lemma OwnersOnTop(frames: seq<Frame>, handlers: seq<Handler>)
    requires HandlersOk(frames, handlers) && |frames| > 0
    ensures forall i :: 0 <= i < |handlers| ==>
              (i < frames[|frames| - 1].excBase <==> handlers[i].frameIndex < |frames| - 1)
  {
    assert Splits(handlers, frames[|frames| - 1].excBase, |frames| - 1);
  }

  // ---- who catches -------------------------------------------------------------------------------------

  predicate Willing(h: Handler, code: TrapCode) {
    !(code == Thrown && h.trapOnly)
  }

  /** The number of handlers below and including the innermost willing one; zero if none is willing. */
  function CatchDepth(handlers: seq<Handler>, code: TrapCode): (n: nat)
    ensures n <= |handlers|
    ensures n > 0 ==> Willing(handlers[n - 1], code)
    ensures forall i :: n <= i < |handlers| ==> !Willing(handlers[i], code)
  {
    if |handlers| == 0 || Willing(handlers[|handlers| - 1], code) then |handlers|
    else CatchDepth(handlers[..|handlers| - 1], code)
  }

  /** `vm_wrap_catch_payload`: a user's throw arrives as thrown; a trap, and a failed assertion, which is
      thrown as the number of the code, arrive as a record. */
  function CatchPayload(code: TrapCode, payload: Value): Value {
    if code == Thrown && payload != I32(CodeNumber(Thrown)) then payload
    else TrapRecord(code == Thrown, code)
  }

  /** What a program throws is what it catches, with the exception of the integer 4. */
  lemma ThrownArrives(v: Value)
    ensures CatchPayload(Thrown, v) == v <==> v != I32(4)
  {
  }

  function StoreReg(regs: seq<Value>, r: nat, v: Value): seq<Value> {
    if r < |regs| then regs[r := v] else regs
  }

  function Caught(fr: Frame, h: Handler, v: Value): Frame {
    fr.(pc := h.catchPc, regs := StoreReg(fr.regs, h.dstReg, v))
  }

  // ---- bytes in use ------------------------------------------------------------------------------------

  function SumTotals(frames: seq<Frame>): nat {
    if |frames| == 0 then 0 else SumTotals(frames[..|frames| - 1]) + frames[|frames| - 1].total
  }

  lemma SumAppend(frames: seq<Frame>, fr: Frame)
    ensures SumTotals(frames + [fr]) == SumTotals(frames) + fr.total
  {
    assert (frames + [fr])[..|frames|] == frames;
  }

  lemma {:induction false} SumBound(frames: seq<Frame>, each: nat)
    requires forall i :: 0 <= i < |frames| ==> frames[i].total <= each
    ensures SumTotals(frames) <= each * |frames|
    decreases |frames|
  {
    if |frames| > 0 {
      var n := |frames| - 1;
      SumBound(frames[..n], each);
      assert each * |frames| == each * n + each;
    }
  }

  /** Replacing the top frame. */
  lemma SumReplaceTop(frames: seq<Frame>, fr: Frame)
    requires |frames| > 0
    ensures var n := |frames| - 1;
            SumTotals(frames[n := fr]) == SumTotals(frames) - frames[n].total + fr.total
  {
    var n := |frames| - 1;
    assert frames[n := fr][..n] == frames[..n];
  }

  // ---- single frames -----------------------------------------------------------------------------------

  /** A live frame: its registers are those of its function, and its bytes lie inside the stack. */
  ghost predicate FrameOk(funcs: seq<Func>, fr: Frame, i: nat, cap: nat) {
    && fr.func < |funcs|
    && |fr.regs| == |funcs[fr.func].kinds|
    && fr.total == Total(funcs[fr.func].kinds) > 0
    && fr.mem + fr.total <= cap
    && (fr.hasCaller <==> i > 0)
  }

  ghost predicate FramesOk(funcs: seq<Func>, frames: seq<Frame>, cap: nat) {
    && (forall i :: 0 <= i < |frames| ==> FrameOk(funcs, frames[i], i, cap))
    && (forall i :: 0 < i < |frames| ==> frames[i].callerDst < |frames[i - 1].regs|)
  }

  lemma FramesGrow(funcs: seq<Func>, frames: seq<Frame>, cap: nat, cap': nat)
    requires FramesOk(funcs, frames, cap) && cap <= cap'
    ensures FramesOk(funcs, frames, cap')
  {
  }

  lemma TotalsBounded(funcs: seq<Func>, frames: seq<Frame>, cap: nat)
    requires ProgramOk(funcs) && FramesOk(funcs, frames, cap)
    ensures forall i :: 0 <= i < |frames| ==> frames[i].total <= 8 * MAX_REGS
    ensures forall f :: 0 <= f < |funcs| ==> Total(funcs[f].kinds) <= 8 * MAX_REGS
  {
    hide InsnOk;
  }

  /** Every frame needs at most 2048 bytes, so one more always fits below 2^28. */
  lemma RoomForOneMore(funcs: seq<Func>, frames: seq<Frame>, cap: nat, callee: nat)
    requires ProgramOk(funcs) && FramesOk(funcs, frames, cap) && callee < |funcs| && |frames| < MAX_FRAMES
    ensures SumTotals(frames) + Total(funcs[callee].kinds) <= MAX_CAP
  {
    TotalsBounded(funcs, frames, cap);
    hide *;
    SumBound(frames, 2048);
    var n := |frames|;
    assert SumTotals(frames) <= 2048 * n && n < 100000;
  }

  lemma FramesPrefix(funcs: seq<Func>, frames: seq<Frame>, cap: nat, n: nat)
    requires FramesOk(funcs, frames, cap) && n <= |frames|
    ensures FramesOk(funcs, frames[..n], cap)
  {
  }

  lemma FramesPush(funcs: seq<Func>, frames: seq<Frame>, cap: nat, fr: Frame)
    requires FramesOk(funcs, frames, cap) && FrameOk(funcs, fr, |frames|, cap)
    requires |frames| > 0 ==> fr.callerDst < |frames[|frames| - 1].regs|
    ensures FramesOk(funcs, frames + [fr], cap)
  {
    hide FrameOk;
  }

  lemma FramesReplaceTop(funcs: seq<Func>, frames: seq<Frame>, cap: nat, fr: Frame)
    requires FramesOk(funcs, frames, cap) && |frames| > 0 && FrameOk(funcs, fr, |frames| - 1, cap)
    requires fr.callerDst == frames[|frames| - 1].callerDst
    ensures FramesOk(funcs, frames[|frames| - 1 := fr], cap)
  {
    hide FrameOk;
  }

  /** Frames lie end to end in the byte stack. */
  ghost predicate Contiguous(frames: seq<Frame>) {
    forall i :: 0 <= i < |frames| ==> frames[i].mem == SumTotals(frames[..i])
  }

  lemma PushContiguous(frames: seq<Frame>, fr: Frame)
    ensures Contiguous(frames) && fr.mem == SumTotals(frames) ==> Contiguous(frames + [fr])
  {
    var after := frames + [fr];
    assert forall i :: 0 <= i <= |frames| ==> after[..i] == frames[..i];
    assert frames[..|frames|] == frames;
  }

  lemma ReplaceContiguous(frames: seq<Frame>, fr: Frame)
    requires |frames| > 0
    ensures var n := |frames| - 1;
            Contiguous(frames) ==>
              && (Contiguous(frames[n := fr]) <==> fr.mem == frames[n].mem)
              && frames[n].mem == SumTotals(frames[..n])
  {
    var n := |frames| - 1;
    var after := frames[n := fr];
    assert forall i :: 0 <= i <= n ==> after[..i] == frames[..i];
  }

  lemma StartOfTop(frames: seq<Frame>)
    requires Contiguous(frames) && |frames| > 0
    ensures frames[|frames| - 1].mem == SumTotals(frames[..|frames| - 1])
  {
  }

  lemma ContiguousPrefix(frames: seq<Frame>, n: nat)
    requires Contiguous(frames) && n <= |frames|
    ensures Contiguous(frames[..n])
  {
    assert forall i :: 0 <= i < n ==> frames[..n][..i] == frames[..i];
  }

  lemma {:induction false} SumGrows(frames: seq<Frame>, i: nat, j: nat)
    requires i < j <= |frames|
    ensures SumTotals(frames[..i]) + frames[i].total <= SumTotals(frames[..j])
    decreases j
  {
    assert frames[..j][..j - 1] == frames[..j - 1];
    if i < j - 1 {
      SumGrows(frames, i, j - 1);
    }
  }

  /** No two frames share a byte. */
  ghost predicate Disjoint(frames: seq<Frame>) {
    forall i, j :: 0 <= i < j < |frames| ==> Apart(frames[i], frames[j])
  }

  predicate Apart(a: Frame, b: Frame) {
    a.mem + a.total <= b.mem || b.mem + b.total <= a.mem
  }

  /** Frames that lie end to end are pairwise disjoint. */
  lemma ContiguousIsDisjoint(frames: seq<Frame>)
    requires Contiguous(frames)
    ensures Disjoint(frames)
  {
    hide SumTotals;
    forall i, j | 0 <= i < j < |frames|
      ensures Apart(frames[i], frames[j])
    {
      SumGrows(frames, i, j);
    }
  }

  // ---- steps of the methods ------------------------------------------------------------------------------

  lemma EmptyOk(funcs: seq<Func>, cap: nat)
    ensures HandlersOk([], []) && FramesOk(funcs, [], cap) && SumTotals([]) == 0 && Contiguous([])
  {
  }

  lemma SumTop(funcs: seq<Func>, frames: seq<Frame>, cap: nat, i: nat)
    requires FramesOk(funcs, frames, cap) && 0 < i <= |frames|
    ensures SumTotals(frames[..i]) == SumTotals(frames[..i - 1]) + frames[i - 1].total
    ensures frames[i - 1].mem < cap
  {
    assert frames[..i][..i - 1] == frames[..i - 1];
  }

  lemma CatchStep(handlers: seq<Handler>, code: TrapCode)
    ensures handlers == [] ==> CatchDepth(handlers, code) == 0
    ensures handlers != [] && Willing(handlers[|handlers| - 1], code) ==> CatchDepth(handlers, code) == |handlers|
    ensures handlers != [] && !Willing(handlers[|handlers| - 1], code) ==>
              CatchDepth(handlers, code) == CatchDepth(handlers[..|handlers| - 1], code)
  {
  }

  lemma HandlerFacts(frames: seq<Frame>, handlers: seq<Handler>, w: nat)
    requires HandlersOk(frames, handlers) && w < |handlers|
    ensures handlers[w].frameIndex < |frames|
    ensures forall i :: 0 <= i < w ==> handlers[i].frameIndex <= handlers[w].frameIndex
  {
  }

  lemma CaughtOk(funcs: seq<Func>, frames: seq<Frame>, handlers: seq<Handler>, cap: nat, h: Handler, v: Value)
    requires HandlersOk(frames, handlers) && FramesOk(funcs, frames, cap) && |frames| > 0
    ensures var n := |frames| - 1;
            var after := frames[n := Caught(frames[n], h, v)];
            HandlersOk(after, handlers) && FramesOk(funcs, after, cap) && SumTotals(after) == SumTotals(frames)
  {
    var n := |frames| - 1;
    UpdateKeepsHandlers(frames, handlers, n, Caught(frames[n], h, v));
    SumReplaceTop(frames, Caught(frames[n], h, v));
    FramesReplaceTop(funcs, frames, cap, Caught(frames[n], h, v));
  }

  lemma PushOk(funcs: seq<Func>, frames: seq<Frame>, handlers: seq<Handler>, cap: nat, fr: Frame)
    requires HandlersOk(frames, handlers) && FramesOk(funcs, frames, cap)
    requires fr.excBase == |handlers| && FrameOk(funcs, fr, |frames|, cap)
    requires |frames| > 0 ==> fr.callerDst < |frames[|frames| - 1].regs|
    ensures HandlersOk(frames + [fr], handlers) && FramesOk(funcs, frames + [fr], cap)
    ensures SumTotals(frames + [fr]) == SumTotals(frames) + fr.total
  {
    hide *;
    PushKeepsHandlers(frames, handlers, fr);
    FramesPush(funcs, frames, cap, fr);
    SumAppend(frames, fr);
  }

  lemma ReplaceTopOk(funcs: seq<Func>, frames: seq<Frame>, handlers: seq<Handler>, cap: nat, fr: Frame)
    requires HandlersOk(frames, handlers) && FramesOk(funcs, frames, cap) && |frames| > 0
    requires var was := frames[|frames| - 1];
      fr.excBase == was.excBase && fr.callerDst == was.callerDst && FrameOk(funcs, fr, |frames| - 1, cap)
    ensures var n := |frames| - 1;
            var after := frames[n := fr];
            && HandlersOk(after, handlers) && FramesOk(funcs, after, cap)
            && SumTotals(after) == SumTotals(frames) - frames[n].total + fr.total
  {
    hide *;
    UpdateKeepsHandlers(frames, handlers, |frames| - 1, fr);
    FramesReplaceTop(funcs, frames, cap, fr);
    SumReplaceTop(frames, fr);
  }

  lemma PopTopOk(funcs: seq<Func>, frames: seq<Frame>, handlers: seq<Handler>, cap: nat)
    requires HandlersOk(frames, handlers) && FramesOk(funcs, frames, cap) && |frames| > 0
    ensures var n := |frames| - 1;
            && frames[n].excBase <= |handlers|
            && HandlersOk(frames[..n], handlers[..frames[n].excBase]) && FramesOk(funcs, frames[..n], cap)
            && SumTotals(frames) == SumTotals(frames[..n]) + frames[n].total
  {
    PopKeepsHandlers(frames, handlers, |frames| - 1);
    FramesPrefix(funcs, frames, cap, |frames| - 1);
  }

  /** The top frame, and the code it runs. */
  lemma TopFacts(funcs: seq<Func>, frames: seq<Frame>, cap: nat)
    requires ProgramOk(funcs) && FramesOk(funcs, frames, cap) && |frames| > 0
    ensures var fr := frames[|frames| - 1];
            && FrameOk(funcs, fr, |frames| - 1, cap) && fr.mem < cap
            && fr.func < |funcs| && |fr.regs| == |funcs[fr.func].kinds|
            && (fr.pc < |funcs[fr.func].insns| ==>
                  InsnOk(funcs, funcs[fr.func], fr.pc, funcs[fr.func].insns[fr.pc]))
            && (fr.hasCaller <==> |frames| > 1)
            && (|frames| > 1 ==> fr.callerDst < |frames[|frames| - 2].regs|)
  {
    hide InsnOk, Total;
  }

  // ---- instructions left ---------------------------------------------------------------------------------

  /** The instructions a frame can still run before it jumps back. */
  function Rest(funcs: seq<Func>, fr: Frame): nat {
    if fr.func < |funcs| && fr.pc <= |funcs[fr.func].insns| then |funcs[fr.func].insns| - fr.pc else 0
  }

  function Left(funcs: seq<Func>, frames: seq<Frame>): nat {
    if |frames| == 0 then 0 else Left(funcs, frames[..|frames| - 1]) + Rest(funcs, frames[|frames| - 1])
  }

  /** The length of the longest function. */
  function Longest(funcs: seq<Func>): (m: nat)
    ensures forall f :: 0 <= f < |funcs| ==> |funcs[f].insns| <= m
  {
    if |funcs| == 0 then 0
    else
      var m := Longest(funcs[..|funcs| - 1]);
      var k := |funcs[|funcs| - 1].insns|;
      if k > m then k else m
  }

  lemma LeftSnoc(funcs: seq<Func>, frames: seq<Frame>, fr: Frame)
    ensures Left(funcs, frames + [fr]) == Left(funcs, frames) + Rest(funcs, fr)
  {
    assert (frames + [fr])[..|frames|] == frames;
  }

  lemma LeftTop(funcs: seq<Func>, frames: seq<Frame>, fr: Frame)
    requires |frames| > 0
    ensures var n := |frames| - 1;
            && Left(funcs, frames) == Left(funcs, frames[..n]) + Rest(funcs, frames[n])
            && Left(funcs, frames[n := fr]) == Left(funcs, frames[..n]) + Rest(funcs, fr)
  {
    var n := |frames| - 1;
    assert frames[n := fr][..n] == frames[..n];
  }

  ghost predicate NoTry(funcs: seq<Func>) {
    forall f, i :: 0 <= f < |funcs| && 0 <= i < |funcs[f].insns| ==> !funcs[f].insns[i].Try?
  }

  ghost predicate NoTailCall(funcs: seq<Func>) {
    forall f, i :: 0 <= f < |funcs| && 0 <= i < |funcs[f].insns| ==> !funcs[f].insns[i].TailCall?
  }

  ghost predicate NoJmpIfBack(funcs: seq<Func>) {
    forall f, i :: 0 <= f < |funcs| && 0 <= i < |funcs[f].insns| ==>
      var ins := funcs[f].insns[i];
      ins.JmpIf? ==> ins.d >= 0
  }

  ghost predicate NoSwitchBack(funcs: seq<Func>) {
    forall f, i :: 0 <= f < |funcs| && 0 <= i < |funcs[f].insns| ==>
      var ins := funcs[f].insns[i];
      ins.Switch? ==> TableForward(funcs[f].insns, i + 1, ins.n, ins.d)
  }

  /** No entry of the table, nor the default, leads back to the switch or before it. */
  predicate TableForward(insns: seq<Insn>, first: nat, n: nat, d: int) {
    n + d >= 0 && forall i :: first <= i < first + n && i < |insns| && insns[i].Case? ==> n + insns[i].d >= 0
  }

  /** The only way back is JMP: no conditional jump or switch back, no tail call, and no handler. */
  ghost predicate ForwardOnly(funcs: seq<Func>) {
    NoTry(funcs) && NoTailCall(funcs) && NoJmpIfBack(funcs) && NoSwitchBack(funcs)
  }

  function Budget(fuel: nat, m: nat): nat {
    fuel * (m + 1)
  }

  /** A unit of fuel pays for a whole function. */
  lemma FuelStep(fuel: nat, m: nat)
    ensures Budget(fuel + 1, m) == Budget(fuel, m) + m + 1
  {
  }

  lemma LeftEmpty(funcs: seq<Func>)
    ensures Left(funcs, []) == 0
  {
  }

  lemma ForwardInsn(funcs: seq<Func>, f: nat, i: nat)
    requires f < |funcs| && i < |funcs[f].insns|
    ensures ForwardOnly(funcs) ==>
              var ins := funcs[f].insns[i];
              && !ins.Try? && !ins.TailCall? && (ins.JmpIf? ==> ins.d >= 0)
              && (ins.Switch? ==> TableForward(funcs[f].insns, i + 1, ins.n, ins.d))
  {
  }
}
