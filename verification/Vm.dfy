/** The machine of frames, handlers and fuel: src/vm/frame.c, src/vm/exc.c, src/vm/ops/ops_control.c,
    the switch of src/vm/ops/ops_arith.c and the loop of src/vm/ops/exec_loop.c. */
module Vm {
  import opened FrameLayout
  import opened VmState

  datatype Effect = Store(v: Value) | Raise(code: TrapCode)

  /** What this model leaves to the rest of the VM: how a condition and a kind read, what the other instructions
      do, what a register holds before it is written, and whether arguments may be copied without boxing. */
  datatype Host = Host(truthy: Value -> bool, word: Value -> nat, plain: (nat, seq<Value>) -> Effect, 
                       blank: Kind -> Value, sameTypes: (nat, nat, nat, nat) -> bool)

  const MAX_TAIL_ARGS: nat := 32

  /** The registers of a new frame: the arguments, then whatever the memory holds. */
  function EntryRegs(host: Host, kinds: seq<Kind>, args: seq<Value>): (regs: seq<Value>)
    requires |args| <= |kinds|
    ensures |regs| == |kinds| && args <= regs
  {
    args + seq(|kinds| - |args|, i requires 0 <= i < |kinds| - |args| => host.blank(kinds[|args| + i]))
  }

  /** May the arguments of a tail call be copied as they are? Without arguments only a call of the function
      itself counts as such. */
  predicate Typed(host: Host, caller: nat, callee: nat, first: nat, n: nat) {
    n <= MAX_TAIL_ARGS && (callee == caller || (n > 0 && host.sameTypes(caller, callee, first, n)))
  }

  /** What an instruction, already fetched, does to the frames and handlers: `broke` tells that it should have
      been charged and there was no fuel. */
  ghost predicate Does(funcs: seq<Func>, host: Host, ins: Insn, broke: bool, frames: seq<Frame>,
                       handlers: seq<Handler>, frames': seq<Frame>, handlers': seq<Handler>, pending': Pending,
                       status': Status)
  {
    |frames| > 0 &&
    var n := |frames| - 1;
    var fr := frames[n];
    match ins
    case Ret(a) =>
      && a < |fr.regs| && pending' == NoExc && handlers' == handlers[..CountBelow(handlers, n)]
      && (if n == 0 then frames' == [] && status' == Done(fr.regs[a])
          else
            && status' == Running && fr.callerDst < |frames[n - 1].regs|
            && frames' == frames[..n - 1] + [frames[n - 1].(regs := frames[n - 1].regs[fr.callerDst := fr.regs[a]])])
    case Jmp(d) =>
      && handlers' == handlers && status' == Running
      && (if broke then frames' == frames && pending' == Exc(Fuel, I32(CodeNumber(Fuel)))
          else 0 <= fr.pc + d && frames' == frames[n := fr.(pc := fr.pc + d)] && pending' == NoExc)
    case JmpIf(a, d) =>
      && handlers' == handlers && status' == Running && pending' == NoExc && a < |fr.regs|
      && (if host.truthy(fr.regs[a]) then 0 <= fr.pc + d && frames' == frames[n := fr.(pc := fr.pc + d)]
          else frames' == frames)
    case Call(dst, callee, first, k) =>
      && handlers' == handlers && status' == Running && first + k <= |fr.regs|
      && callee < |funcs| && k <= |funcs[callee].kinds|
      && (if broke then frames' == frames && pending' == Exc(Fuel, I32(CodeNumber(Fuel)))
          else if |frames| >= MAX_FRAMES then
            frames' == frames && pending' == Exc(StackOverflow, I32(CodeNumber(StackOverflow)))
          else
            && pending' == NoExc
            && frames' == frames + [Frame(callee, 0, dst, |handlers|, true, SumTotals(frames),
                                          Total(funcs[callee].kinds),
                                          EntryRegs(host, funcs[callee].kinds, fr.regs[first..first + k]))])
    case TailCall(callee, first, k) =>
      && handlers' == handlers && status' == Running && pending' == NoExc && first + k <= |fr.regs|
      && callee < |funcs| && k <= |funcs[callee].kinds|
      && var total := Total(funcs[callee].kinds);
      var inPlace := Typed(host, fr.func, callee, first, k) && total <= fr.total;
      frames' == frames[..n] + [Frame(callee, 0, fr.callerDst, fr.excBase, fr.hasCaller,
                                      if inPlace then fr.mem + (fr.total - total) else SumTotals(frames[..n]), total,
                                      EntryRegs(host, funcs[callee].kinds, fr.regs[first..first + k]))]
    case Try(dst, trapOnly, d) =>
      && frames' == frames && status' == Running && pending' == NoExc && 0 <= fr.pc + d
      && handlers' == handlers + [Handler(n, fr.pc + d, dst, trapOnly)]
    case EndTry =>
      && frames' == frames && status' == Running && pending' == NoExc
      && |handlers| > 0 && handlers' == handlers[..|handlers| - 1]
    case Throw(a) =>
      && frames' == frames && handlers' == handlers && status' == Running
      && a < |fr.regs| && pending' == Exc(Thrown, fr.regs[a])
    case Assert(a) =>
      && frames' == frames && handlers' == handlers && status' == Running && a < |fr.regs|
      && pending' == if host.truthy(fr.regs[a]) then NoExc else Exc(Thrown, I32(CodeNumber(Thrown)))
    case Switch(a, k, d) =>
      && handlers' == handlers && status' == Running && pending' == NoExc && a < |fr.regs| && fr.func < |funcs|
      && var npc := fr.pc + k + Delta(funcs[fr.func].insns, fr.pc, k, host.word(fr.regs[a]), d);
      0 <= npc && frames' == frames[n := fr.(pc := npc)]
    case Case(tag, d) => false
    case Plain(dst, id) =>
      && handlers' == handlers && status' == Running && dst < |fr.regs|
      && match host.plain(id, fr.regs)
         case Store(v) => pending' == NoExc && frames' == frames[n := fr.(regs := fr.regs[dst := v])]
         case Raise(code) => frames' == frames && pending' == Exc(code, I32(CodeNumber(code)))
  }

  /** The panics that the validator does not rule out. */
  predicate Panics(host: Host, ins: Insn, frames: seq<Frame>, handlers: seq<Handler>) {
    |frames| > 0 &&
    match ins
    case EndTry => handlers == [] || handlers[|handlers| - 1].frameIndex != |frames| - 1
    case TailCall(callee, first, n) =>
      n > MAX_TAIL_ARGS && !Typed(host, frames[|frames| - 1].func, callee, first, n)
    case Case(tag, d) => true
    case _ => false
  }

  /** Does the instruction cost fuel? */
  predicate Charged(ins: Insn) {
    ins.Call? || (ins.Jmp? && ins.d < 0)
  }

  /** What fetching and executing the next instruction does; running off the end of the code panics. */
  ghost predicate DoesNext(funcs: seq<Func>, host: Host, limited: bool, fuel: nat, frames: seq<Frame>,
                           handlers: seq<Handler>, fuel': nat, frames': seq<Frame>, handlers': seq<Handler>,
                           pending': Pending, status': Status)
  {
    |frames| > 0 &&
    var n := |frames| - 1;
    var fr := frames[n];
    fr.func < |funcs| &&
    var insns := funcs[fr.func].insns;
    if fr.pc >= |insns| then status' == Panicked && fuel' == fuel
    else
      var charged := limited && Charged(insns[fr.pc]);
      fuel' == (if charged && fuel > 0 then fuel - 1 else fuel) &&
      var fetched := frames[n := fr.(pc := fr.pc + 1)];
      if Panics(host, insns[fr.pc], fetched, handlers) then status' == Panicked
      else Does(funcs, host, insns[fr.pc], charged && fuel == 0, fetched, handlers,
                frames', handlers', pending', status')
  }

  /** One round of the loop: a pending exception goes to its handler first. */
  ghost predicate Round(funcs: seq<Func>, host: Host, limited: bool, fuel: nat, frames: seq<Frame>,
                        handlers: seq<Handler>, pending: Pending, fuel': nat, frames': seq<Frame>,
                        handlers': seq<Handler>, pending': Pending, status': Status)
  {
    match pending
    case NoExc =>
      if frames == [] then status' == Done(Null) && frames' == [] && fuel' == fuel
      else DoesNext(funcs, host, limited, fuel, frames, handlers, fuel', frames', handlers', pending', status')
    case Exc(code, payload) =>
      var w := CatchDepth(handlers, code);
      if w == 0 then status' == Uncaught && frames' == [] && handlers' == [] && fuel' == fuel
      else
        var h := handlers[w - 1];
        h.frameIndex < |frames| &&
        DoesNext(funcs, host, limited, fuel,
                 frames[..h.frameIndex] + [Caught(frames[h.frameIndex], h, CatchPayload(code, payload))],
                 handlers[..w - 1], fuel', frames', handlers', pending', status')
  }

  // ---- what is charged -----------------------------------------------------------------------------------

  /** Is the next instruction of the top frame one that costs fuel? */
  predicate NextDue(funcs: seq<Func>, frames: seq<Frame>) {
    |frames| > 0 &&
    var fr := frames[|frames| - 1];
    fr.func < |funcs| && fr.pc < |funcs[fr.func].insns| && Charged(funcs[fr.func].insns[fr.pc])
  }

  /** Is the instruction of the next round, which a handler may decide, one that costs fuel? */
  predicate Due(funcs: seq<Func>, frames: seq<Frame>, handlers: seq<Handler>, pending: Pending) {
    match pending
    case NoExc => NextDue(funcs, frames)
    case Exc(code, payload) =>
      var w := CatchDepth(handlers, code);
      w > 0 && handlers[w - 1].frameIndex < |frames| &&
      var h := handlers[w - 1];
      NextDue(funcs, frames[..h.frameIndex] + [Caught(frames[h.frameIndex], h, CatchPayload(code, payload))])
  }

  lemma NextCharges(funcs: seq<Func>, host: Host, limited: bool, fuel: nat, frames: seq<Frame>,
                    handlers: seq<Handler>, fuel': nat, frames': seq<Frame>, handlers': seq<Handler>,
                    pending': Pending, status': Status)
    requires DoesNext(funcs, host, limited, fuel, frames, handlers, fuel', frames', handlers', pending', status')
    ensures fuel' == if limited && NextDue(funcs, frames) && fuel > 0 then fuel - 1 else fuel
    ensures limited && NextDue(funcs, frames) && fuel == 0 ==>
              status' == Running && pending' == Exc(Fuel, I32(CodeNumber(Fuel)))
  {
    hide CountBelow, Total, EntryRegs, SumTotals, Typed, Delta;
  }

  /** A round takes a unit of fuel exactly for a charged instruction while there is one, and raises the trap
      for a charged instruction without. */
  lemma RoundCharges(funcs: seq<Func>, host: Host, limited: bool, fuel: nat, frames: seq<Frame>,
                     handlers: seq<Handler>, pending: Pending, fuel': nat, frames': seq<Frame>,
                     handlers': seq<Handler>, pending': Pending, status': Status)
    requires Round(funcs, host, limited, fuel, frames, handlers, pending, fuel', frames', handlers', pending', status')
    ensures fuel' == if limited && Due(funcs, frames, handlers, pending) && fuel > 0 then fuel - 1 else fuel
    ensures limited && Due(funcs, frames, handlers, pending) && fuel == 0 ==>
              status' == Running && pending' == Exc(Fuel, I32(CodeNumber(Fuel)))
  {
    hide DoesNext, CatchPayload, Caught, Charged;
    if pending.Exc? && CatchDepth(handlers, pending.code) > 0 {
      var w := CatchDepth(handlers, pending.code);
      var h := handlers[w - 1];
      var caught := Caught(frames[h.frameIndex], h, CatchPayload(pending.code, pending.payload));
      NextCharges(funcs, host, limited, fuel, frames[..h.frameIndex] + [caught], handlers[..w - 1],
                  fuel', frames', handlers', pending', status');
    } else if pending.NoExc? && frames != [] {
      NextCharges(funcs, host, limited, fuel, frames, handlers, fuel', frames', handlers', pending', status');
    }
  }

  // ---- jumps to themselves ---------------------------------------------------------------------------------

  /** Is a conditional jump or a switch next that leads back to itself? */
  predicate SpinsAt(funcs: seq<Func>, host: Host, frames: seq<Frame>) {
    |frames| > 0 &&
    var fr := frames[|frames| - 1];
    fr.func < |funcs| && fr.pc < |funcs[fr.func].insns| &&
    match funcs[fr.func].insns[fr.pc]
    case JmpIf(a, d) => d == -1 && a < |fr.regs| && host.truthy(fr.regs[a])
    case Switch(a, n, d) =>
      a < |fr.regs| && 1 + n + Delta(funcs[fr.func].insns, fr.pc + 1, n, host.word(fr.regs[a]), d) == 0
    case _ => false
  }

  lemma RoundSpins(funcs: seq<Func>, host: Host, limited: bool, fuel: nat, frames: seq<Frame>,
                   handlers: seq<Handler>, fuel': nat, frames': seq<Frame>, handlers': seq<Handler>,
                   pending': Pending, status': Status)
    requires Round(funcs, host, limited, fuel, frames, handlers, NoExc, fuel', frames', handlers', pending', status')
    requires SpinsAt(funcs, host, frames)
    ensures frames' == frames && fuel' == fuel && pending' == NoExc && status' == Running
  {
    hide CountBelow, Total, EntryRegs, SumTotals, Typed, Delta;
    var n := |frames| - 1;
    var fr := frames[n];
    assert fr.(pc := fr.pc + 1).(pc := fr.pc) == fr && frames[n := fr.(pc := fr.pc + 1)][n := fr] == frames;
  }

  // ---- where frames lie ----------------------------------------------------------------------------------

  /** No tail call that is copied in place goes into a smaller function. */
  ghost predicate NoShrink(funcs: seq<Func>, host: Host) {
    forall f, i :: 0 <= f < |funcs| && 0 <= i < |funcs[f].insns| ==>
      var ins := funcs[f].insns[i];
      ins.TailCall? && ins.callee < |funcs| && Typed(host, f, ins.callee, ins.first, ins.n) ==>
        Total(funcs[ins.callee].kinds) >= Total(funcs[f].kinds)
  }

  /** An instruction keeps frames end to end, unless it is a tail call that shrinks its frame in place. */
  lemma DoesKeepsContiguous(funcs: seq<Func>, host: Host, ins: Insn, broke: bool, frames: seq<Frame>,
                            handlers: seq<Handler>, frames': seq<Frame>, handlers': seq<Handler>, pending': Pending,
                            status': Status)
    requires Does(funcs, host, ins, broke, frames, handlers, frames', handlers', pending', status')
    requires Contiguous(frames)
    requires ins.TailCall? && ins.callee < |funcs| ==>
      var fr := frames[|frames| - 1];
      Typed(host, fr.func, ins.callee, ins.first, ins.n) ==> Total(funcs[ins.callee].kinds) >= fr.total
    ensures Contiguous(frames')
  {
    hide Contiguous, SumTotals, Total, EntryRegs, CountBelow, Typed;
    var n := |frames| - 1;
    match ins
    case Ret(a) =>
      ContiguousPrefix(frames, n);
      if n == 0 {
        EmptyOk(funcs, 0);
      } else {
        ReplaceContiguous(frames[..n], frames'[n - 1]);
        assert frames[..n][n - 1 := frames'[n - 1]] == frames';
      }
    case Call(dst, callee, first, k) =>
      if frames' != frames { PushContiguous(frames, frames'[n + 1]); }
    case TailCall(callee, first, k) =>
      ReplaceContiguous(frames, frames'[n]);
      assert frames[n := frames'[n]] == frames';
    case Jmp(d) => ReplaceContiguous(frames, frames'[n]);
    case JmpIf(a, d) => ReplaceContiguous(frames, frames'[n]);
    case Switch(a, k, d) => ReplaceContiguous(frames, frames'[n]);
    case Plain(dst, id) => ReplaceContiguous(frames, frames'[n]);
    case _ =>
  }

  lemma NextKeepsContiguous(funcs: seq<Func>, host: Host, limited: bool, fuel: nat, frames: seq<Frame>,
                            handlers: seq<Handler>, fuel': nat, frames': seq<Frame>, handlers': seq<Handler>,
                            pending': Pending, status': Status)
    requires DoesNext(funcs, host, limited, fuel, frames, handlers, fuel', frames', handlers', pending', status')
    requires Contiguous(frames) && NoShrink(funcs, host) && status' != Panicked
    requires frames[|frames| - 1].func < |funcs| ==>
               frames[|frames| - 1].total == Total(funcs[frames[|frames| - 1].func].kinds)
    ensures Contiguous(frames')
  {
    hide Contiguous, SumTotals, Total, Does, Typed;
    var fr := frames[|frames| - 1];
    var ins := funcs[fr.func].insns[fr.pc];
    var fetched := frames[|frames| - 1 := fr.(pc := fr.pc + 1)];
    ReplaceContiguous(frames, fr.(pc := fr.pc + 1));
    var charged := limited && Charged(ins);
    var broke := charged && fuel == 0;
    DoesKeepsContiguous(funcs, host, ins, broke, fetched, handlers, frames', handlers', pending', status');
  }

  lemma RoundKeepsContiguous(funcs: seq<Func>, host: Host, limited: bool, fuel: nat, frames: seq<Frame>, cap: nat,
                             handlers: seq<Handler>, pending: Pending, fuel': nat, frames': seq<Frame>,
                             handlers': seq<Handler>, pending': Pending, status': Status)
    requires Round(funcs, host, limited, fuel, frames, handlers, pending, fuel', frames', handlers', pending', status')
    requires FramesOk(funcs, frames, cap) && Contiguous(frames) && NoShrink(funcs, host) && status' != Panicked
    ensures Contiguous(frames')
  {
    hide DoesNext, NoShrink, Total, CatchPayload, SumTotals;
    if pending.Exc? && CatchDepth(handlers, pending.code) > 0 {
      var w := CatchDepth(handlers, pending.code) - 1;
      var h := handlers[w];
      var caught := Caught(frames[h.frameIndex], h, CatchPayload(pending.code, pending.payload));
      ContiguousPrefix(frames, h.frameIndex + 1);
      ReplaceContiguous(frames[..h.frameIndex + 1], caught);
      assert frames[..h.frameIndex + 1][h.frameIndex := caught] == frames[..h.frameIndex] + [caught];
      NextKeepsContiguous(funcs, host, limited, fuel, frames[..h.frameIndex] + [caught], handlers[..w],
                          fuel', frames', handlers', pending', status');
    } else if pending.NoExc? && frames != [] {
      NextKeepsContiguous(funcs, host, limited, fuel, frames, handlers, fuel', frames', handlers', pending', status');
    } else {
      EmptyOk(funcs, 0);
    }
  }

  class Machine {
    const funcs: seq<Func>
    const host: Host
    const fuelLimit: nat
    var frames: seq<Frame>
    var handlers: seq<Handler>
    var pending: Pending
    var top: nat
    var cap: nat
    var fuel: nat
    var status: Status
    ghost var executed: nat
    ghost var paid: nat

    ghost predicate Valid()
      reads `frames, `handlers, `top, `cap
    {
      && ProgramOk(funcs)
      && HandlersOk(frames, handlers)
      && FramesOk(funcs, frames, cap)
      && top == SumTotals(frames)
      && |frames| <= MAX_FRAMES
      && IsStackCap(cap)
    }

    /** A machine about to run `entry`, whose first frame has no caller. */
    constructor (funcs: seq<Func>, host: Host, fuelLimit: nat, entry: nat)
      requires ProgramOk(funcs) && entry < |funcs|
      ensures Valid() && status == Running && pending == NoExc && handlers == [] && executed == paid == 0
      ensures this.funcs == funcs && this.host == host && this.fuelLimit == fuelLimit == fuel
      ensures frames == [Frame(entry, 0, 0, 0, false, 0, Total(funcs[entry].kinds),
                               EntryRegs(host, funcs[entry].kinds, []))]
      ensures Contiguous(frames)
    {
      this.funcs, this.host, this.fuelLimit := funcs, host, fuelLimit;
      frames, handlers, pending, top, cap := [], [], NoExc, 0, 0;
      fuel, status, executed, paid := fuelLimit, Running, 0, 0;
      new;
      hide HandlersOk, FramesOk, SumTotals, IsStackCap, EntryRegs, Contiguous, Total, InsnOk, ProgramOk;
      EmptyOk(funcs, cap);
      FirstCap();
      var ok := PushFrame(entry, 0, [], false);
    }

    // ---- bytes ---------------------------------------------------------------------------------------------

    /** `vm_rf_release` for a frame in the byte stack. */
    method RfRelease(fr: Frame)
      requires fr.total <= top && fr.mem < cap
      modifies `top
      ensures top == old(top) - fr.total
    {
      if fr.mem < cap {
        top := top - fr.total;
      }
    }

    /** `vm_frame_stack_bump`. */
    method StackBump(size: nat) returns (mem: nat)
      requires IsStackCap(cap) && size > 0 && top + size <= MAX_CAP
      modifies `top, `cap
      ensures mem == old(top) && top == old(top) + size
      ensures IsStackCap(cap) && cap >= old(cap) && top <= cap
    {
      if top + size > cap {
        cap := GrownCap(top, cap, size);
      }
      mem := top;
      top := top + size;
    }

    // ---- handlers ------------------------------------------------------------------------------------------

    method ExcPop() returns (popped: bool, h: Handler)
      modifies `handlers
      ensures popped == (old(handlers) != [])
      ensures popped ==> old(handlers) == handlers + [h]
      ensures !popped ==> handlers == []
    {
      h := Handler(0, 0, 0, false);
      if |handlers| == 0 { return false, h; }
      h := handlers[|handlers| - 1];
      handlers := handlers[..|handlers| - 1];
      return true, h;
    }

    /** `vm_exc_pop_for_frame`: drops the top handlers of that frame, and no others. */
    method ExcPopForFrame(f: nat)
      modifies `handlers
      ensures handlers <= old(handlers)
      ensures forall i :: |handlers| <= i < |old(handlers)| ==> old(handlers)[i].frameIndex == f
      ensures handlers != [] ==> handlers[|handlers| - 1].frameIndex != f
    {
      while |handlers| > 0 && handlers[|handlers| - 1].frameIndex == f
        invariant handlers <= old(handlers)
        invariant forall i :: |handlers| <= i < |old(handlers)| ==> old(handlers)[i].frameIndex == f
      {
        handlers := handlers[..|handlers| - 1];
      }
    }

    /** `vm_unwind_all_frames`: gives back the bytes of every frame, the top one first. */
    method UnwindAllFrames()
      requires FramesOk(funcs, frames, cap) && top == SumTotals(frames)
      modifies `frames, `top
      ensures frames == [] && top == 0
    {
      hide *;
      var i := |frames|;
      assert frames[..i] == frames;
      while i > 0
        invariant 0 <= i <= |frames| && top == SumTotals(frames[..i]) && frames == old(frames)
      {
        SumTop(funcs, frames, cap, i);
        RfRelease(frames[i - 1]);
        i := i - 1;
      }
      EmptyOk(funcs, cap);
      frames := [];
    }

    /** Drops the frames above `f`, as the loop of `vm_exc_dispatch` does; their handlers are already gone. */
    method CutFrames(f: nat)
      requires FramesOk(funcs, frames, cap) && top == SumTotals(frames) && f < |frames|
      requires forall i :: 0 <= i < |handlers| ==> handlers[i].frameIndex <= f
      modifies `frames, `top, `handlers
      ensures frames == old(frames)[..f + 1] && top == SumTotals(frames) && handlers == old(handlers)
    {
      hide *;
      ghost var all, hs := frames, handlers;
      assert all[..|frames|] == frames;
      while |frames| - 1 > f
        invariant f < |frames| <= |all| && frames == all[..|frames|]
        invariant top == SumTotals(frames) && handlers == old(handlers)
        decreases |frames|
      {
        var idx := |frames| - 1;
        assert |hs| > 0 ==> hs[|hs| - 1].frameIndex <= f;
        ExcPopForFrame(idx);
        assert handlers == hs;
        SumTop(funcs, all, cap, idx + 1);
        RfRelease(frames[idx]);
        frames := frames[..idx];
      }
    }

    /** `vm_exc_dispatch`: control goes to the innermost willing handler; the frames above its frame and the
        handlers above it disappear, everything below stays as it was. Without a willing handler nothing
        is left. */
    method ExcDispatch() returns (uncaught: bool)
      requires Valid() && pending.Exc?
      modifies `frames, `handlers, `pending, `top
      ensures Valid()
      ensures uncaught <==> CatchDepth(old(handlers), old(pending).code) == 0
      ensures uncaught ==> frames == [] && handlers == [] && top == 0 && pending == old(pending)
      ensures !uncaught ==>
        var w := CatchDepth(old(handlers), old(pending).code) - 1;
        var h := old(handlers)[w];
        && h.frameIndex < |old(frames)|
        && handlers == old(handlers)[..w]
        && frames == old(frames)[..h.frameIndex]
                     + [Caught(old(frames)[h.frameIndex], h, CatchPayload(old(pending).code, old(pending).payload))]
        && pending == NoExc
    {
      hide HandlersOk, FramesOk, FrameOk, SumTotals, ProgramOk, IsStackCap, CatchDepth, CatchPayload, Total;
      var code, payload := pending.code, pending.payload;
      ghost var hs, frs := handlers, frames;
      if |handlers| == 0 {
        CatchStep(handlers, code);
        UnwindAllFrames();
        EmptyOk(funcs, cap);
        return true;
      }
      var h: Handler;
      while true
        invariant handlers <= hs && CatchDepth(handlers, code) == CatchDepth(hs, code)
        invariant frames == frs && top == SumTotals(frs) && pending == old(pending)
        decreases |handlers|
      {
        CatchStep(handlers, code);
        if |handlers| == 0 {
          UnwindAllFrames();
          EmptyOk(funcs, cap);
          return true;
        }
        ghost var before := handlers;
        var popped;
        popped, h := ExcPop();
        assert before[..|before| - 1] == handlers;
        if code == Thrown && h.trapOnly { continue; }
        break;
      }
      ghost var w := |handlers|;
      assert handlers == hs[..w] && h == hs[w];
      HandlerFacts(frs, hs, w);
      CutFrames(h.frameIndex);
      FramesPrefix(funcs, frs, cap, h.frameIndex + 1);
      CatchKeepsHandlers(frs, hs, w);
      CaughtOk(funcs, frames, handlers, cap, h, CatchPayload(code, payload));
      frames := frames[h.frameIndex := Caught(frames[h.frameIndex], h, CatchPayload(code, payload))];
      pending := NoExc;
      return false;
    }

    // ---- fuel ----------------------------------------------------------------------------------------------

    /** `jello_vm_fuel_charge`. */
    method FuelCharge() returns (ok: bool)
      modifies `fuel, `pending
      ensures ok <==> fuelLimit == 0 || old(fuel) > 0
      ensures fuel == if fuelLimit > 0 && ok then old(fuel) - 1 else old(fuel)
      ensures pending == if ok then old(pending) else Exc(Fuel, I32(CodeNumber(Fuel)))
    {
      if fuelLimit == 0 { return true; }
      if fuel == 0 {
        pending := Exc(Fuel, I32(CodeNumber(Fuel)));
        return false;
      }
      fuel := fuel - 1;
      return true;
    }

    // ---- frames --------------------------------------------------------------------------------------------

    /** `vm_push_frame`: a new frame on top, or a trap at the frame limit. */
    method PushFrame(callee: nat, callerDst: nat, args: seq<Value>, hasCaller: bool) returns (ok: bool)
      requires Valid() && callee < |funcs| && |args| <= |funcs[callee].kinds|
      requires hasCaller <==> |frames| > 0
      requires |frames| > 0 ==> callerDst < |frames[|frames| - 1].regs|
      modifies `frames, `pending, `top, `cap
      ensures Valid()
      ensures ok <==> |old(frames)| < MAX_FRAMES
      ensures !ok ==> frames == old(frames) && pending == Exc(StackOverflow, I32(CodeNumber(StackOverflow)))
      ensures ok ==>
        && pending == old(pending)
        && frames == old(frames) + [Frame(callee, 0, callerDst, |handlers|, hasCaller, old(top),
                                          Total(funcs[callee].kinds), EntryRegs(host, funcs[callee].kinds, args))]
      ensures Contiguous(old(frames)) ==> Contiguous(frames)
    {
      hide HandlersOk, FramesOk, SumTotals, IsStackCap, EntryRegs, Contiguous, Total, InsnOk;
      if |frames| >= MAX_FRAMES {
        pending := Exc(StackOverflow, I32(CodeNumber(StackOverflow)));
        return false;
      }
      if |frames| == 0 {
        EmptyOk(funcs, cap);
        top := 0;
      }
      RoomForOneMore(funcs, frames, cap, callee);
      ghost var cap0 := cap;
      var total := Total(funcs[callee].kinds);
      var mem := StackBump(total);
      FramesGrow(funcs, frames, cap0, cap);
      var fr := Frame(callee, 0, callerDst, |handlers|, hasCaller, mem, total,
                      EntryRegs(host, funcs[callee].kinds, args));
      PushOk(funcs, frames, handlers, cap, fr);
      PushContiguous(frames, fr);
      frames := frames + [fr];
      return true;
    }

    /** `vm_replace_frame`: the top frame makes way for the callee's, which inherits where to return to and
        its handlers. A frame that is copied in place and shrinks keeps its upper end, so its memory starts
        later; otherwise the new frame starts where the frames below end. */
    method ReplaceFrame(callee: nat, args: seq<Value>, typed: bool)
      requires Valid() && |frames| > 0 && callee < |funcs| && |args| <= |funcs[callee].kinds|
      modifies `frames, `top, `cap, `status
      ensures Valid()
      ensures !typed && |args| > MAX_TAIL_ARGS ==> status == Panicked && frames == old(frames)
      ensures typed || |args| <= MAX_TAIL_ARGS ==>
        var fr := old(frames)[|old(frames)| - 1];
        var total := Total(funcs[callee].kinds);
        var inPlace := typed && total <= fr.total;
        && status == old(status)
        && frames == old(frames)[..|old(frames)| - 1]
                     + [Frame(callee, 0, fr.callerDst, fr.excBase, fr.hasCaller,
                              if inPlace then fr.mem + (fr.total - total)
                              else SumTotals(old(frames)[..|old(frames)| - 1]),
                              total, EntryRegs(host, funcs[callee].kinds, args))]
        && (Contiguous(old(frames)) ==> (Contiguous(frames) <==> !(typed && total < fr.total)))
    {
      hide HandlersOk, FramesOk, SumTotals, IsStackCap, EntryRegs, Contiguous, Total, InsnOk;
      var n := |frames| - 1;
      var fr := frames[n];
      var total := Total(funcs[callee].kinds);
      TopFacts(funcs, frames, cap);
      PopTopOk(funcs, frames, handlers, cap);
      var mem;
      if typed && total <= fr.total {
        mem := fr.mem;
        if total < fr.total {
          var delta := fr.total - total;
          mem := mem + delta;
          top := top - delta;
        }
      } else {
        if !typed && |args| > MAX_TAIL_ARGS {
          status := Panicked;
          return;
        }
        ghost var cap0 := cap;
        FramesPrefix(funcs, frames, cap, n);
        RoomForOneMore(funcs, frames[..n], cap, callee);
        RfRelease(fr);
        mem := StackBump(total);
        FramesGrow(funcs, frames, cap0, cap);
      }
      var after := Frame(callee, 0, fr.callerDst, fr.excBase, fr.hasCaller, mem, total,
                         EntryRegs(host, funcs[callee].kinds, args));
      ReplaceTopOk(funcs, frames, handlers, cap, after);
      ReplaceContiguous(frames, after);
      assert frames[n := after] == frames[..n] + [after];
      frames := frames[n := after];
    }

    /** A tail call that shrinks the top frame in place, and the next push: the frame that was moved up and the
        new one, which starts at the lowered top, are disjoint exactly if the old frame was large enough. */
    method ShrinkAndPush(callee: nat, args: seq<Value>, next: nat, dst: nat, nextArgs: seq<Value>)
      requires Valid() && Contiguous(frames) && 0 < |frames| < MAX_FRAMES
      requires callee < |funcs| && |args| <= |funcs[callee].kinds| && dst < |funcs[callee].kinds|
      requires next < |funcs| && |nextArgs| <= |funcs[next].kinds|
      requires Total(funcs[callee].kinds) < frames[|frames| - 1].total
      modifies `frames, `pending, `top, `cap, `status
      ensures Valid() && |frames| == |old(frames)| + 1
      ensures var n := |old(frames)| - 1;
        var a, b := frames[n], frames[n + 1];
        && a.func == callee && b.func == next
        && (Apart(a, b) <==> old(frames)[n].total >= 2 * a.total + b.total)
    {
      hide HandlersOk, FramesOk, SumTotals, IsStackCap, EntryRegs, Total, InsnOk, ProgramOk, Contiguous, FrameOk;
      ghost var n, was, lower := |frames| - 1, frames[|frames| - 1], frames[..|frames| - 1];
      StartOfTop(frames);
      SizeOk(callee);
      ReplaceFrame(callee, args, true);
      ghost var moved := frames[n];
      assert frames == lower + [moved] && moved.mem == SumTotals(lower) + (was.total - moved.total);
      SumAppend(lower, moved);
      TopFacts(funcs, frames, cap);
      var ok := PushFrame(next, dst, nextArgs, true);
      assert frames[n] == moved && frames[n + 1].mem == SumTotals(lower) + moved.total;
      SizeOk(next);
    }

    /** A function has registers, so its frames are not empty. */
    lemma SizeOk(f: nat)
      requires Valid() && f < |funcs|
      ensures Total(funcs[f].kinds) > 0
    {
    }

    // ---- instructions --------------------------------------------------------------------------------------

    ghost predicate Ready()
      reads this
    {
      Valid() && |frames| > 0 && pending == NoExc
    }

    function Current(): Frame
      requires |frames| > 0
      reads this
    {
      frames[|frames| - 1]
    }

    /** Fuel first, then the instructions left in all frames. */
    ghost function Measure(): nat
      reads `frames, `fuel
    {
      Budget(fuel, Longest(funcs)) + Left(funcs, frames)
    }

    /** Overwrites the program counter or a register of the top frame. */
    method Update(pc: nat, regs: seq<Value>)
      requires Valid() && |frames| > 0 && |regs| == |Current().regs|
      modifies `frames
      ensures Valid()
      ensures frames == old(frames)[|old(frames)| - 1 := old(Current()).(pc := pc, regs := regs)]
      ensures Measure() == old(Measure() - Rest(funcs, Current())) + Rest(funcs, Current())
    {
      hide HandlersOk, FramesOk, SumTotals, IsStackCap, Total, InsnOk, Left, Budget, Longest, Rest;
      var n := |frames| - 1;
      var fr := frames[n].(pc := pc, regs := regs);
      TopFacts(funcs, frames, cap);
      ReplaceTopOk(funcs, frames, handlers, cap, fr);
      LeftTop(funcs, frames, fr);
      frames := frames[n := fr];
    }

    /** JOP_RET. The handlers of the frame go, and no others; the check that they can be cut never fails. */
    method Ret(a: nat)
      requires Ready() && a < |Current().regs|
      modifies `frames, `handlers, `top, `status
      ensures Valid()
      ensures handlers == old(handlers)[..CountBelow(old(handlers), |old(frames)| - 1)]
      ensures forall i :: 0 <= i < |old(handlers)| ==>
                (i < |handlers| <==> old(handlers)[i].frameIndex < |old(frames)| - 1)
      ensures |old(frames)| == 1 ==> frames == [] && status == Done(old(Current()).regs[a])
      ensures |old(frames)| > 1 ==>
        var n, fr := |old(frames)| - 2, old(Current());
        var caller := old(frames)[n];
        && fr.callerDst < |caller.regs|
        && frames == old(frames)[..n] + [caller.(regs := caller.regs[fr.callerDst := fr.regs[a]])]
        && status == old(status)
      ensures Measure() <= old(Measure())
    {
      hide Left, Budget, Longest, HandlersOk, FramesOk, SumTotals, IsStackCap, Total, InsnOk, CountBelow, ProgramOk;
      ghost var frs, hs := frames, handlers;
      var n := |frames| - 1;
      var fr := frames[n];
      TopFacts(funcs, frames, cap);
      ExcBaseCounts(frames, handlers, n);
      ReturnDropsOwnHandlers(frames, handlers);
      OwnersOnTop(frames, handlers);
      PopTopOk(funcs, frames, handlers, cap);
      if fr.excBase > |handlers| {
        assert false;
      }
      handlers := handlers[..fr.excBase];
      RfRelease(fr);
      frames := frames[..n];
      LeftTop(funcs, frs, fr);
      if !fr.hasCaller {
        EmptyOk(funcs, cap);
        frames, handlers := [], [];
        status := Done(fr.regs[a]);
        return;
      }
      Update(Current().pc, StoreReg(Current().regs, fr.callerDst, fr.regs[a]));
      assert frames == frs[..n - 1] + [frames[n - 1]];
    }

    /** JOP_JMP: charges fuel exactly for a jump back. */
    method Jmp(d: int)
      requires Ready()
      modifies `frames, `fuel, `pending, `status
      ensures Valid()
      ensures var npc := old(Current()).pc + d;
        if !(0 <= npc <= |funcs[old(Current()).func].insns|) then
          status == Panicked && frames == old(frames) && fuel == old(fuel) && pending == NoExc
        else if d < 0 && fuelLimit > 0 && old(fuel) == 0 then
          && status == old(status) && frames == old(frames) && fuel == 0
          && pending == Exc(Fuel, I32(CodeNumber(Fuel)))
        else
          && status == old(status) && pending == NoExc
          && fuel == (if d < 0 && fuelLimit > 0 then old(fuel) - 1 else old(fuel))
          && frames == old(frames)[|old(frames)| - 1 := old(Current()).(pc := npc)]
      ensures d >= 0 || fuelLimit > 0 ==> Measure() <= old(Measure())
    {
      hide Left, Budget, Longest, HandlersOk, FramesOk, SumTotals, IsStackCap, Total, ProgramOk;
      TopFacts(funcs, frames, cap);
      var npc := Current().pc + d;
      if !(0 <= npc <= |funcs[Current().func].insns|) {
        status := Panicked;
        return;
      }
      if d < 0 {
        var ok := FuelCharge();
        if !ok { return; }
        FuelStep(fuel, Longest(funcs));
      }
      Update(npc, Current().regs);
    }

    /** JOP_JMP_IF: never charges. */
    method JmpIf(a: nat, d: int)
      requires Ready() && a < |Current().regs|
      modifies `frames, `status
      ensures Valid()
      ensures var npc := old(Current()).pc + d;
        if !host.truthy(old(Current()).regs[a]) then status == old(status) && frames == old(frames)
        else if !(0 <= npc <= |funcs[old(Current()).func].insns|) then
          status == Panicked && frames == old(frames)
        else
          && status == old(status)
          && frames == old(frames)[|old(frames)| - 1 := old(Current()).(pc := npc)]
      ensures d >= 0 ==> Measure() <= old(Measure())
    {
      hide Left, Budget, Longest, HandlersOk, FramesOk, SumTotals, IsStackCap, Total, ProgramOk;
      TopFacts(funcs, frames, cap);
      if host.truthy(Current().regs[a]) {
        var npc := Current().pc + d;
        if !(0 <= npc <= |funcs[Current().func].insns|) {
          status := Panicked;
          return;
        }
        Update(npc, Current().regs);
      }
    }

    /** JOP_SWITCH_KIND: to where the first entry of the table with the kind leads, or else the default, counted
        from the end of the table. It never charges. */
    method Switch(a: nat, n: nat, d: int)
      requires Ready() && a < |Current().regs| && Current().func < |funcs|
      modifies `frames, `status
      ensures Valid()
      ensures var fr := old(Current());
        var insns := funcs[fr.func].insns;
        var npc := fr.pc + n + Delta(insns, fr.pc, n, host.word(fr.regs[a]), d);
        if !(fr.pc + n <= |insns| && 0 <= npc <= |insns|) then status == Panicked && frames == old(frames)
        else status == old(status) && frames == old(frames)[|old(frames)| - 1 := fr.(pc := npc)]
      ensures TableOk(funcs[old(Current()).func].insns, old(Current()).pc, n, d) ==> status == old(status)
      ensures TableForward(funcs[old(Current()).func].insns, old(Current()).pc, n, d) ==> Measure() <= old(Measure())
    {
      hide Left, Budget, Longest, HandlersOk, FramesOk, SumTotals, IsStackCap, Total, ProgramOk;
      TopFacts(funcs, frames, cap);
      var kind, first := host.word(Current().regs[a]), Current().pc;
      ghost var insns := funcs[Current().func].insns;
      if first + n > |funcs[Current().func].insns| {
        status := Panicked;
        return;
      }
      var delta, i := d, 0;
      while i < n
        invariant 0 <= i <= n && delta == d
        invariant Delta(insns, first, n, kind, d) == Delta(insns, first + i, n - i, kind, d)
      {
        var entry := funcs[Current().func].insns[first + i];
        if entry.Case? && entry.tag == kind {
          delta := entry.d;
          break;
        }
        i := i + 1;
      }
      assert delta == Delta(insns, first, n, kind, d);
      var npc := first + n + delta;
      if !(0 <= npc <= |funcs[Current().func].insns|) {
        status := Panicked;
        return;
      }
      DeltaIsOneOf(insns, first, n, kind, d);
      Update(npc, Current().regs);
    }

    /** JOP_TRY. */
    method Try(dst: nat, trapOnly: bool, d: int)
      requires Ready()
      modifies `handlers, `status
      ensures Valid()
      ensures var pc := Current().pc + d;
        if 0 <= pc <= |funcs[Current().func].insns| then
          status == old(status) && handlers == old(handlers) + [Handler(|frames| - 1, pc, dst, trapOnly)]
        else status == Panicked && handlers == old(handlers)
    {
      hide HandlersOk, FramesOk, SumTotals, IsStackCap, Total, ProgramOk;
      TopFacts(funcs, frames, cap);
      var catchPc := Current().pc + d;
      if !(0 <= catchPc <= |funcs[Current().func].insns|) {
        status := Panicked;
        return;
      }
      var h := Handler(|frames| - 1, catchPc, dst, trapOnly);
      TryKeepsHandlers(frames, handlers, h);
      handlers := handlers + [h];
    }

    /** JOP_ENDTRY: panics exactly when the top handler is not the frame's own. */
    method EndTry()
      requires Ready()
      modifies `handlers, `status
      ensures var n := |old(handlers)|;
        if n > 0 && old(handlers)[n - 1].frameIndex == |frames| - 1 then
          status == old(status) && handlers == old(handlers)[..n - 1] && Valid()
        else status == Panicked && handlers <= old(handlers)
    {
      hide HandlersOk, FramesOk, SumTotals, IsStackCap, Total, ProgramOk;
      ghost var hs := handlers;
      if |handlers| > 0 && handlers[|handlers| - 1].frameIndex == |frames| - 1 {
        EndTryKeepsHandlers(frames, handlers);
      }
      var popped, h := ExcPop();
      assert popped ==> handlers == hs[..|hs| - 1];
      if !popped || h.frameIndex != |frames| - 1 {
        status := Panicked;
      }
    }

    /** JOP_CALL of a bytecode function: one unit of fuel, then a frame. */
    method Call(dst: nat, callee: nat, first: nat, n: nat)
      requires Ready() && dst < |Current().regs| && first + n <= |Current().regs|
      requires callee < |funcs| && n <= |funcs[callee].kinds|
      modifies `frames, `fuel, `pending, `top, `cap
      ensures Valid()
      ensures
        if fuelLimit > 0 && old(fuel) == 0 then
          frames == old(frames) && fuel == 0 && pending == Exc(Fuel, I32(CodeNumber(Fuel)))
        else
          && fuel == (if fuelLimit > 0 then old(fuel) - 1 else old(fuel))
          && if |old(frames)| >= MAX_FRAMES then
               frames == old(frames) && pending == Exc(StackOverflow, I32(CodeNumber(StackOverflow)))
             else
               && pending == NoExc
               && frames == old(frames) + [Frame(callee, 0, dst, |handlers|, true, old(top),
                    Total(funcs[callee].kinds),
                    EntryRegs(host, funcs[callee].kinds, old(Current()).regs[first..first + n]))]
      ensures fuelLimit > 0 ==> Measure() <= old(Measure())
    {
      hide Left, Budget, Longest, HandlersOk, FramesOk, SumTotals, IsStackCap, Total, ProgramOk, EntryRegs;
      var ok := FuelCharge();
      if !ok { return; }
      FuelStep(fuel, Longest(funcs));
      ok := PushFrame(callee, dst, Current().regs[first..first + n], true);
      if ok { LeftSnoc(funcs, old(frames), Current()); }
    }

    /** JOP_THROW, and what a failed JOP_ASSERT throws: the number of the code. */
    method Throw(payload: Value)
      modifies `pending
      ensures pending == Exc(Thrown, payload)
    {
      pending := Exc(Thrown, payload);
    }

    /** Any other instruction: a register gets a value, or a trap is raised (`jello_vm_trap`). */
    method Plain(dst: nat, id: nat)
      requires Ready() && dst < |Current().regs|
      modifies `frames, `pending
      ensures Valid()
      ensures match host.plain(id, old(Current()).regs)
        case Store(v) =>
          && pending == NoExc
          && var fr := old(Current());
          frames == old(frames)[|old(frames)| - 1 := fr.(regs := fr.regs[dst := v])]
        case Raise(code) => frames == old(frames) && pending == Exc(code, I32(CodeNumber(code)))
      ensures Measure() == old(Measure())
    {
      hide Left, Budget, Longest, HandlersOk, FramesOk, SumTotals, IsStackCap, Total, ProgramOk;
      match host.plain(id, Current().regs)
      case Store(v) => Update(Current().pc, Current().regs[dst := v]);
      case Raise(code) => pending := Exc(code, I32(CodeNumber(code)));
    }

    // ---- one instruction -----------------------------------------------------------------------------------

    /** The instruction before the program counter of the top frame, which has been fetched. */
    ghost predicate Fetched(ins: Insn)
      reads this
    {
      && Ready()
      && Current().func < |funcs|
      && 0 < Current().pc <= |funcs[Current().func].insns|
      && ins == funcs[Current().func].insns[Current().pc - 1]
      && |Current().regs| == |funcs[Current().func].kinds|
      && InsnOk(funcs, funcs[Current().func], Current().pc - 1, ins)
    }

    /** A fetched instruction keeps the machine in order, panics in three cases only, and takes fuel exactly for
        calls and unconditional jumps back. */
    method Execute(ins: Insn)
      requires Fetched(ins) && status == Running
      modifies `frames, `handlers, `pending, `top, `cap, `fuel, `status
      ensures status == Panicked || Valid()
      ensures status == Panicked <==> Panics(host, ins, old(frames), old(handlers))
      ensures fuelLimit == 0 || !Charged(ins) ==> fuel == old(fuel)
      ensures fuelLimit > 0 && Charged(ins) && old(fuel) > 0 ==> fuel == old(fuel) - 1
      ensures fuelLimit > 0 && Charged(ins) && old(fuel) == 0 ==> fuel == 0
      ensures status != Panicked ==>
                Does(funcs, host, ins, fuelLimit > 0 && Charged(ins) && old(fuel) == 0,
                     old(frames), old(handlers), frames, handlers, pending, status)
      ensures ForwardOnly(funcs) && fuelLimit > 0 && old(handlers) == [] ==>
                handlers == [] && Measure() <= old(Measure())
    {
      hide HandlersOk, FramesOk, SumTotals, IsStackCap, Total, ProgramOk, EntryRegs, Left, Longest, ForwardOnly;
      hide CountBelow, Contiguous, FrameOk, Budget, Delta, TableForward, TableOk, Measure, Typed;
      ForwardInsn(funcs, Current().func, Current().pc - 1);
      match ins
      case Ret(a) => Ret(a);
      case Jmp(d) => Jmp(d);
      case JmpIf(a, d) => JmpIf(a, d);
      case Call(dst, callee, first, n) => Call(dst, callee, first, n);
      case TailCall(callee, first, n) =>
        ReplaceFrame(callee, Current().regs[first..first + n], Typed(host, Current().func, callee, first, n));
      case Try(dst, trapOnly, d) => Try(dst, trapOnly, d);
      case EndTry => EndTry();
      case Throw(a) => Throw(Current().regs[a]);
      case Switch(a, n, d) => Switch(a, n, d);
      case Case(tag, d) => status := Panicked;
      case Assert(a) => if !host.truthy(Current().regs[a]) { Throw(I32(CodeNumber(Thrown))); }
      case Plain(dst, id) => Plain(dst, id);
    }

    // ---- the loop ------------------------------------------------------------------------------------------

    predicate Spins()
      reads this
    {
      status == Running && pending == NoExc && SpinsAt(funcs, host, frames)
    }

    /** The round after the exception check: the next instruction of the top frame. */
    method FetchAndExecute()
      requires Ready() && status == Running
      modifies `frames, `handlers, `pending, `top, `cap, `fuel, `status, `executed
      ensures status == Panicked || Valid()
      ensures executed == old(executed) + 1 || (executed == old(executed) && status != Running)
      ensures ForwardOnly(funcs) && fuelLimit > 0 && old(handlers) == [] ==>
                handlers == [] && Measure() + executed <= old(Measure() + executed)
      ensures DoesNext(funcs, host, fuelLimit > 0, old(fuel), old(frames), old(handlers),
                       fuel, frames, handlers, pending, status)
    {
      hide HandlersOk, FramesOk, SumTotals, IsStackCap, Total, ProgramOk, Left, Longest, InsnOk, ForwardOnly;
      hide FrameOk, Budget, CountBelow, EntryRegs;
      TopFacts(funcs, frames, cap);
      var fr := Current();
      if fr.pc >= |funcs[fr.func].insns| {
        status := Panicked;
        return;
      }
      var ins := funcs[fr.func].insns[fr.pc];
      LeftTop(funcs, frames, fr.(pc := fr.pc + 1));
      Update(fr.pc + 1, fr.regs);
      executed := executed + 1;
      Execute(ins);
    }

    /** One round of `vm_exec_loop`. In every program the charged instructions that were executed and the fuel
        that is left add up to the same; a charged instruction for which there is no fuel traps instead. */
    method Step()
      requires Valid() && status == Running
      modifies `frames, `handlers, `pending, `top, `cap, `fuel, `status, `executed, `paid
      ensures status == Panicked || Valid()
      ensures executed == old(executed) + 1 || (executed == old(executed) && status != Running)
      ensures ForwardOnly(funcs) && fuelLimit > 0 && old(handlers) == [] ==>
                handlers == [] && Measure() + executed <= old(Measure() + executed)
      ensures Round(funcs, host, fuelLimit > 0, old(fuel), old(frames), old(handlers), old(pending),
                    fuel, frames, handlers, pending, status)
      ensures fuel <= old(fuel) && (fuelLimit > 0 ==> paid + fuel == old(paid + fuel))
      ensures paid == old(paid) + if old(Due(funcs, frames, handlers, pending)) && (fuelLimit == 0 || old(fuel) > 0)
                                  then 1 else 0
      ensures fuelLimit > 0 && old(fuel == 0 && Due(funcs, frames, handlers, pending)) ==>
                status == Running && pending == Exc(Fuel, I32(CodeNumber(Fuel)))
    {
      hide Valid, Round, Measure, ForwardOnly, Due;
      ghost var frs, hs, p, was := frames, handlers, pending, fuel;
      OneRound();
      RoundCharges(funcs, host, fuelLimit > 0, was, frs, hs, p, fuel, frames, handlers, pending, status);
      if Due(funcs, frs, hs, p) && (fuelLimit == 0 || was > 0) {
        paid := paid + 1;
      }
    }

    method OneRound()
      requires Valid() && status == Running
      modifies `frames, `handlers, `pending, `top, `cap, `fuel, `status, `executed
      ensures status == Panicked || Valid()
      ensures executed == old(executed) + 1 || (executed == old(executed) && status != Running)
      ensures ForwardOnly(funcs) && fuelLimit > 0 && old(handlers) == [] ==>
                handlers == [] && Measure() + executed <= old(Measure() + executed)
      ensures Round(funcs, host, fuelLimit > 0, old(fuel), old(frames), old(handlers), old(pending),
                    fuel, frames, handlers, pending, status)
    {
      hide HandlersOk, FramesOk, SumTotals, IsStackCap, Total, ProgramOk, Left, Longest, InsnOk, ForwardOnly;
      hide CountBelow, Contiguous, Budget, DoesNext, CatchDepth, Caught, CatchPayload;
      if pending.Exc? {
        var uncaught := ExcDispatch();
        if uncaught {
          status := Uncaught;
          LeftEmpty(funcs);
          return;
        }
      }
      if |frames| == 0 {
        status := Done(Null);
        return;
      }
      FetchAndExecute();
    }

    /** Any number of rounds: every reachable state is a good one, unless the machine has panicked; and in a
        program in which no tail call shrinks its frame in place all frames lie end to end, so that no two
        share a byte. Under a fuel limit the charged instructions executed and the fuel left add up to the
        fuel there was, in every program. */
    method Run(rounds: nat)
      requires Valid()
      modifies `frames, `handlers, `pending, `top, `cap, `fuel, `status, `executed, `paid
      ensures status == Panicked || Valid()
      ensures executed <= old(executed) + rounds && paid <= old(paid) + rounds
      ensures fuelLimit > 0 ==> paid + fuel == old(paid + fuel)
      ensures NoShrink(funcs, host) && old(Contiguous(frames)) && status != Panicked ==>
                Contiguous(frames) && Disjoint(frames)
    {
      hide HandlersOk, SumTotals, IsStackCap, ProgramOk, FramesOk, Contiguous, Round, NoShrink, ForwardOnly, Disjoint;
      hide Due, Measure;
      var i := 0;
      while i < rounds && status == Running
        invariant i <= rounds && (status == Panicked || Valid()) && executed <= old(executed) + i
        invariant paid <= old(paid) + i && (fuelLimit > 0 ==> paid + fuel == old(paid + fuel))
        invariant NoShrink(funcs, host) && old(Contiguous(frames)) && status != Panicked ==> Contiguous(frames)
      {
        ghost var frs, hs, p, was, c := frames, handlers, pending, fuel, cap;
        Step();
        if NoShrink(funcs, host) && old(Contiguous(frames)) && status != Panicked {
          RoundKeepsContiguous(funcs, host, fuelLimit > 0, was, frs, c, hs, p, fuel, frames, handlers, pending, status);
        }
        i := i + 1;
      }
      if status != Panicked && NoShrink(funcs, host) && old(Contiguous(frames)) {
        ContiguousIsDisjoint(frames);
      }
    }

    /** `vm_exec_loop` with fuel: a program that only jumps back by JMP stops, within the measure. */
    method ExecLoop()
      requires Valid() && status == Running && handlers == [] && ForwardOnly(funcs) && fuelLimit > 0
      modifies `frames, `handlers, `pending, `top, `cap, `fuel, `status, `executed, `paid
      ensures status != Running
      ensures executed <= old(executed + Measure())
    {
      hide ForwardOnly, Round, Due;
      while status == Running
        invariant status == Running ==> Valid() && handlers == []
        invariant Measure() + executed <= old(Measure() + executed)
        decreases old(Measure() + executed) - executed, if status == Running then 1 else 0
      {
        Step();
      }
    }

    /** A conditional jump or a switch to itself is never charged: whatever the fuel, it runs for as many rounds
        as one cares to wait. */
    method Spin(rounds: nat)
      requires Valid() && Spins()
      modifies `frames, `handlers, `pending, `top, `cap, `fuel, `status, `executed, `paid
      ensures status == Running && Spins() && fuel == old(fuel) && frames == old(frames)
      ensures executed == old(executed) + rounds
    {
      hide Valid, Round, Due, SpinsAt, ForwardOnly;
      var i := 0;
      while i < rounds
        invariant i <= rounds && Valid() && Spins()
        invariant fuel == old(fuel) && frames == old(frames) && executed == old(executed) + i
      {
        ghost var frs, hs, was := frames, handlers, fuel;
        Step();
        RoundSpins(funcs, host, fuelLimit > 0, was, frs, hs, fuel, frames, handlers, pending, status);
        i := i + 1;
      }
    }
  }

  /** The bound of the fuel limit: `n` units of fuel and functions of at most `M` instructions allow no more
      than `n * (M + 1) + M` instructions. */
  method ExecWithFuel(funcs: seq<Func>, host: Host, n: nat, entry: nat) returns (m: Machine)
    requires ProgramOk(funcs) && entry < |funcs| && n > 0 && ForwardOnly(funcs)
    ensures fresh(m) && m.status != Running
    ensures m.executed <= n * (Longest(funcs) + 1) + Longest(funcs)
  {
    m := new Machine(funcs, host, n, entry);
    LeftTop(funcs, m.frames, m.frames[0]);
    LeftEmpty(funcs);
    assert m.frames[..0] == [];
    m.ExecLoop();
  }
}
