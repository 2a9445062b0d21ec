/** What the machine does over several instructions, and what a dispatch leaves, register by register. */
module VmMeaning {
  import opened FrameLayout
  import opened VmState
  import opened Vm

  // ---- dispatch ----------------------------------------------------------------------------------------------

  /** A handler that lets what is pending pass: one for traps only, when something is thrown. */
  predicate Passes(h: Handler, code: TrapCode) {
    h.trapOnly && code == Thrown
  }

  /** `vm_exc_dispatch`. It is uncaught if and only if every handler lets it pass, and then nothing is left.
      Otherwise the topmost other handler and all above it go, as do the frames above its frame. That frame goes on
      at the handler's target with the payload in its register, if it has it: the very value for a throw, except for
      the integer 4, and a record with the code that was pending otherwise. Nothing else of the frame changes. */
  method Dispatch(m: Machine) returns (uncaught: bool)
    requires m.Valid() && m.pending.Exc?
    modifies m`frames, m`handlers, m`pending, m`top
    ensures m.Valid()
    ensures uncaught <==> forall i :: 0 <= i < |old(m.handlers)| ==> Passes(old(m.handlers)[i], old(m.pending).code)
    ensures uncaught ==> m.frames == [] && m.handlers == [] && m.top == 0
    ensures !uncaught ==>
      && m.pending == NoExc && |m.handlers| < |old(m.handlers)| && m.handlers == old(m.handlers)[..|m.handlers|]
      && (forall i :: |m.handlers| < i < |old(m.handlers)| ==> Passes(old(m.handlers)[i], old(m.pending).code))
      && var h := old(m.handlers)[|m.handlers|];
      && !Passes(h, old(m.pending).code)
      && h.frameIndex < |old(m.frames)| && |m.frames| == h.frameIndex + 1
      && m.frames[..h.frameIndex] == old(m.frames)[..h.frameIndex]
      && var fr, was := m.frames[h.frameIndex], old(m.frames)[h.frameIndex];
      && fr.pc == h.catchPc && fr.func == was.func && fr.callerDst == was.callerDst && fr.excBase == was.excBase
      && fr.hasCaller == was.hasCaller && fr.mem == was.mem && fr.total == was.total && |fr.regs| == |was.regs|
      && (forall r :: 0 <= r < |was.regs| && r != h.dstReg ==> fr.regs[r] == was.regs[r])
      && (h.dstReg < |was.regs| ==>
            fr.regs[h.dstReg] == if old(m.pending).code == Thrown && old(m.pending).payload != I32(4)
                                 then old(m.pending).payload
                                 else TrapRecord(old(m.pending).code == Thrown, old(m.pending).code))
  {
    hide Machine.Valid;
    uncaught := m.ExcDispatch();
  }

  // ---- calls -------------------------------------------------------------------------------------------------

  /** The next instruction of the top frame. */
  predicate At(funcs: seq<Func>, frames: seq<Frame>, ins: Insn) {
    |frames| > 0 &&
    var fr := frames[|frames| - 1];
    fr.func < |funcs| && fr.pc < |funcs[fr.func].insns| && funcs[fr.func].insns[fr.pc] == ins
  }

  /** The registers of a new frame: its arguments, and what the memory of their kind holds in the others. */
  lemma EntryIs(host: Host, kinds: seq<Kind>, args: seq<Value>, i: nat)
    requires |args| <= |kinds| && i < |kinds|
    ensures EntryRegs(host, kinds, args)[i] == if i < |args| then args[i] else host.blank(kinds[i])
  {
  }

  lemma CallRound(funcs: seq<Func>, host: Host, limited: bool, fuel: nat, frames: seq<Frame>, handlers: seq<Handler>,
                  fuel': nat, frames': seq<Frame>, handlers': seq<Handler>, pending': Pending, status': Status,
                  dst: nat, callee: nat, first: nat, n: nat)
    requires Round(funcs, host, limited, fuel, frames, handlers, NoExc, fuel', frames', handlers', pending', status')
    requires At(funcs, frames, Call(dst, callee, first, n)) && |frames| < MAX_FRAMES && (!limited || fuel > 0)
    ensures status' == Running && pending' == NoExc && handlers' == handlers
    ensures fuel' == fuel - if limited then 1 else 0
    ensures |frames'| == |frames| + 1
    ensures var k := |frames| - 1;
      var was, fr := frames[k], frames'[k + 1];
      && frames'[..k + 1] == frames[k := was.(pc := was.pc + 1)]
      && fr.func == callee && fr.pc == 0 && fr.callerDst == dst && first + n <= |was.regs| && n <= |fr.regs|
      && forall i :: 0 <= i < n ==> fr.regs[i] == was.regs[first + i]
  {
    hide Total, SumTotals;
  }

  /** A call at 100000 frames raises trap 5, and pushes nothing. */
  lemma CallAtLimit(funcs: seq<Func>, host: Host, limited: bool, fuel: nat, frames: seq<Frame>,
                    handlers: seq<Handler>, fuel': nat, frames': seq<Frame>, handlers': seq<Handler>,
                    pending': Pending, status': Status, dst: nat, callee: nat, first: nat, n: nat)
    requires Round(funcs, host, limited, fuel, frames, handlers, NoExc, fuel', frames', handlers', pending', status')
    requires At(funcs, frames, Call(dst, callee, first, n)) && |frames| == 100000 && (!limited || fuel > 0)
    ensures status' == Running && pending' == Exc(StackOverflow, I32(5)) && handlers' == handlers
    ensures |frames'| == |frames|
  {
    hide Total, SumTotals, EntryRegs;
  }

  /** Without fuel a call and a jump back raise trap 6, and do nothing else; whatever else comes next, no fuel is
      needed for it. */
  lemma NoFuelLeft(funcs: seq<Func>, host: Host, frames: seq<Frame>, handlers: seq<Handler>, fuel': nat,
                   frames': seq<Frame>, handlers': seq<Handler>, pending': Pending, status': Status, ins: Insn)
    requires Round(funcs, host, true, 0, frames, handlers, NoExc, fuel', frames', handlers', pending', status')
    requires At(funcs, frames, ins)
    ensures fuel' == 0
    ensures ins.Call? || (ins.Jmp? && ins.d < 0) ==>
              && status' == Running && pending' == Exc(Fuel, I32(6)) && handlers' == handlers
              && frames' == frames[|frames| - 1 := frames[|frames| - 1].(pc := frames[|frames| - 1].pc + 1)]
    ensures !ins.Call? && !(ins.Jmp? && ins.d < 0) ==>
              Round(funcs, host, false, 0, frames, handlers, NoExc, fuel', frames', handlers', pending', status')
  {
    hide Total, SumTotals, EntryRegs, CountBelow, Typed, Delta;
  }

  lemma RetRound(funcs: seq<Func>, host: Host, limited: bool, fuel: nat, frames: seq<Frame>, handlers: seq<Handler>,
                 fuel': nat, frames': seq<Frame>, handlers': seq<Handler>, pending': Pending, status': Status, a: nat)
    requires Round(funcs, host, limited, fuel, frames, handlers, NoExc, fuel', frames', handlers', pending', status')
    requires At(funcs, frames, Ret(a)) && |frames| > 1
    requires forall i :: 0 <= i < |handlers| ==> handlers[i].frameIndex < |frames| - 1
    ensures status' == Running && pending' == NoExc && handlers' == handlers && fuel' == fuel
    ensures var k := |frames| - 2;
      var caller, fr := frames[k], frames[k + 1];
      && a < |fr.regs| && fr.callerDst < |caller.regs|
      && frames' == frames[..k] + [caller.(regs := caller.regs[fr.callerDst := fr.regs[a]])]
  {
    hide Total, SumTotals, EntryRegs, CountBelow;
    AllBelow(handlers, |frames| - 1);
  }

  lemma {:induction false} AllBelow(handlers: seq<Handler>, f: nat)
    requires forall i :: 0 <= i < |handlers| ==> handlers[i].frameIndex < f
    ensures CountBelow(handlers, f) == |handlers| && handlers[..CountBelow(handlers, f)] == handlers
    decreases |handlers|
  {
    if |handlers| > 0 { AllBelow(handlers[..|handlers| - 1], f); }
  }

  /** The top frame is one instruction further, and its register `dst` holds what `src` held. */
  predicate Answered(before: seq<Frame>, after: seq<Frame>, dst: nat, src: nat) {
    && |after| == |before| > 0
    && var k := |before| - 1;
    var fr, was := after[k], before[k];
    && after[..k] == before[..k] && dst < |was.regs| && src < |was.regs|
    && fr == was.(pc := was.pc + 1, regs := was.regs[dst := was.regs[src]])
  }

  /** A call of a function that returns its `a`-th argument. Two rounds later the caller, one instruction further,
      has that argument in the register it asked for; all else is as before, handlers included, and one unit of fuel
      has been used if it is limited. */
  method CallReturns(m: Machine, dst: nat, callee: nat, first: nat, n: nat, a: nat)
    requires Ready(m) && At(m.funcs, m.frames, Call(dst, callee, first, n))
    requires |m.frames| < 100000 && (m.fuelLimit == 0 || m.fuel > 0)
    requires callee < |m.funcs| && |m.funcs[callee].insns| > 0 && m.funcs[callee].insns[0] == Ret(a) && a < n
    modifies m`frames, m`handlers, m`pending, m`top, m`cap, m`fuel, m`status, m`executed, m`paid
    ensures Ready(m) && m.handlers == old(m.handlers)
    ensures m.fuel == old(m.fuel) - if m.fuelLimit > 0 then 1 else 0
    ensures Answered(old(m.frames), m.frames, dst, first + a)
  {
    HandlersBelow(m);
    ghost var frs, hs, f := m.frames, m.handlers, m.fuel;
    hide *;
    ReadyIs(m);
    m.Step();
    CallRound(m.funcs, m.host, m.fuelLimit > 0, f, frs, hs, m.fuel, m.frames, m.handlers, m.pending, m.status,
              dst, callee, first, n);
    ghost var called, g := m.frames, m.fuel;
    AtRet(m.funcs, frs, called, a);
    m.Step();
    RetRound(m.funcs, m.host, m.fuelLimit > 0, g, called, hs, m.fuel, m.frames, m.handlers, m.pending, m.status, a);
    Together(frs, called, m.frames, dst, first, n, a);
    ReadyIs(m);
  }

  lemma ReadyIs(m: Machine)
    ensures Ready(m) <==> m.Valid() && m.status == Running && m.pending == NoExc && |m.frames| > 0
  {
  }

  lemma AtRet(funcs: seq<Func>, frames: seq<Frame>, called: seq<Frame>, a: nat)
    requires |called| == |frames| + 1 && |frames| > 0
    requires var fr := called[|frames|];
      fr.func < |funcs| && fr.pc == 0 && |funcs[fr.func].insns| > 0 && funcs[fr.func].insns[0] == Ret(a)
    ensures At(funcs, called, Ret(a))
  {
  }

  lemma Together(frames: seq<Frame>, called: seq<Frame>, after: seq<Frame>, dst: nat, first: nat, n: nat, a: nat)
    requires |frames| > 0 && |called| == |frames| + 1 && a < n
    requires var k := |frames| - 1;
      var was, fr := frames[k], called[k + 1];
      && called[..k + 1] == frames[k := was.(pc := was.pc + 1)]
      && fr.callerDst == dst && first + n <= |was.regs| && n <= |fr.regs|
      && forall i :: 0 <= i < n ==> fr.regs[i] == was.regs[first + i]
    requires var k := |called| - 2;
      var caller, fr := called[k], called[k + 1];
      && fr.callerDst < |caller.regs|
      && after == called[..k] + [caller.(regs := caller.regs[fr.callerDst := fr.regs[a]])]
    ensures Answered(frames, after, dst, first + a)
  {
    var k := |frames| - 1;
    assert called[k] == called[..k + 1][k];
    assert called[..k] == called[..k + 1][..k] == frames[..k];
  }

  /** The machine runs, and nothing is pending. */
  ghost predicate Ready(m: Machine)
    reads m
  {
    m.Valid() && m.status == Running && m.pending == NoExc && |m.frames| > 0
  }

  lemma HandlersBelow(m: Machine)
    requires m.Valid()
    ensures forall i :: 0 <= i < |m.handlers| ==> m.handlers[i].frameIndex < |m.frames|
  {
  }

  /** Arguments of a tail call are copied in place for the function itself, and for another one if there are some and
      their types agree; never more than 32. */
  lemma InPlaceWhen(host: Host, f: nat, callee: nat, first: nat, n: nat)
    ensures Typed(host, f, callee, first, n) ==> n <= 32 && (callee == f || n > 0)
    ensures n <= 32 && callee == f ==> Typed(host, f, callee, first, n)
    ensures 0 < n <= 32 && callee != f ==> (Typed(host, f, callee, first, n) <==> host.sameTypes(f, callee, first, n))
  {
  }

  // ---- tail calls --------------------------------------------------------------------------------------------

  lemma TailCallRound(funcs: seq<Func>, host: Host, limited: bool, fuel: nat, frames: seq<Frame>,
                      handlers: seq<Handler>, fuel': nat, frames': seq<Frame>, handlers': seq<Handler>,
                      pending': Pending, status': Status, callee: nat, first: nat, n: nat)
    requires Round(funcs, host, limited, fuel, frames, handlers, NoExc, fuel', frames', handlers', pending', status')
    requires At(funcs, frames, TailCall(callee, first, n)) && n <= 32
    ensures status' == Running && pending' == NoExc && handlers' == handlers && fuel' == fuel
    ensures |frames'| == |frames|
    ensures var k := |frames| - 1;
      var was, fr := frames[k], frames'[k];
      && frames'[..k] == frames[..k]
      && fr.func == callee && fr.pc == 0 && fr.callerDst == was.callerDst
      && first + n <= |was.regs| && n <= |fr.regs|
      && forall i :: 0 <= i < n ==> fr.regs[i] == was.regs[first + i]
  {
    hide Total, SumTotals, Typed;
  }

  lemma ReturnRound(funcs: seq<Func>, host: Host, limited: bool, fuel: nat, frames: seq<Frame>,
                    handlers: seq<Handler>, fuel': nat, frames': seq<Frame>, handlers': seq<Handler>,
                    pending': Pending, status': Status, a: nat)
    requires Round(funcs, host, limited, fuel, frames, handlers, NoExc, fuel', frames', handlers', pending', status')
    requires At(funcs, frames, Ret(a)) && |frames| > 1 && HandlersOk(frames, handlers)
    ensures status' == Running && pending' == NoExc && fuel' == fuel && OwnGone(handlers, handlers', |frames| - 1)
    ensures var k := |frames| - 2;
      var caller, fr := frames[k], frames[k + 1];
      && a < |fr.regs| && fr.callerDst < |caller.regs|
      && frames' == frames[..k] + [caller.(regs := caller.regs[fr.callerDst := fr.regs[a]])]
  {
    ExcBaseCounts(frames, handlers, |frames| - 1);
    ReturnDropsOwnHandlers(frames, handlers);
    assert forall i :: 0 <= i < |handlers| ==> handlers[i].frameIndex < |frames|;
    hide Total, SumTotals, EntryRegs, CountBelow, HandlersOk;
  }

  /** Of the handlers exactly those of frames below `f` are left. */
  predicate OwnGone(before: seq<Handler>, after: seq<Handler>, f: nat) {
    after <= before && forall i :: 0 <= i < |before| ==> (i < |after| <==> before[i].frameIndex < f)
  }

  /** The top frame is gone, and the register of the frame below that it was called for holds `v`. */
  predicate Passed(before: seq<Frame>, after: seq<Frame>, v: Value) {
    && |before| > 1 && |after| == |before| - 1
    && var k := |before| - 2;
    var dst := before[k + 1].callerDst;
    && after[..k] == before[..k] && dst < |before[k].regs|
    && after[k] == before[k].(regs := before[k].regs[dst := v])
  }

  lemma PassedOn(frames: seq<Frame>, called: seq<Frame>, after: seq<Frame>, first: nat, n: nat, a: nat)
    requires |frames| > 1 && |called| == |frames| && a < n
    requires var k := |frames| - 1;
      var was, fr := frames[k], called[k];
      && called[..k] == frames[..k] && fr.callerDst == was.callerDst
      && first + n <= |was.regs| && n <= |fr.regs|
      && forall i :: 0 <= i < n ==> fr.regs[i] == was.regs[first + i]
    requires var k := |called| - 2;
      var caller, fr := called[k], called[k + 1];
      && fr.callerDst < |caller.regs|
      && after == called[..k] + [caller.(regs := caller.regs[fr.callerDst := fr.regs[a]])]
    ensures first + a < |frames[|frames| - 1].regs|
    ensures Passed(frames, after, frames[|frames| - 1].regs[first + a])
  {
    var k := |frames| - 2;
    assert called[k] == called[..k + 1][k] && frames[k] == frames[..k + 1][k];
    assert called[..k] == called[..k + 1][..k] == frames[..k];
  }

  /** A tail call of a function that returns its `a`-th argument. Two rounds later it is the caller of the frame that
      has the argument, in the register it asked for; the frame and its handlers are gone; and no fuel was used. */
  method TailCallReturns(m: Machine, callee: nat, first: nat, n: nat, a: nat)
    requires Ready(m) && At(m.funcs, m.frames, TailCall(callee, first, n)) && |m.frames| > 1 && n <= 32
    requires callee < |m.funcs| && |m.funcs[callee].insns| > 0 && m.funcs[callee].insns[0] == Ret(a) && a < n
    modifies m`frames, m`handlers, m`pending, m`top, m`cap, m`fuel, m`status, m`executed, m`paid
    ensures Ready(m) && m.fuel == old(m.fuel) && OwnGone(old(m.handlers), m.handlers, |old(m.frames)| - 1)
    ensures first + a < |old(m.frames)[|old(m.frames)| - 1].regs|
    ensures Passed(old(m.frames), m.frames, old(m.frames)[|old(m.frames)| - 1].regs[first + a])
  {
    ghost var frs, hs, f := m.frames, m.handlers, m.fuel;
    hide *;
    ReadyIs(m);
    m.Step();
    TailCallRound(m.funcs, m.host, m.fuelLimit > 0, f, frs, hs, m.fuel, m.frames, m.handlers, m.pending, m.status,
                  callee, first, n);
    ghost var called, g := m.frames, m.fuel;
    AtStart(m.funcs, called, a);
    GoodHandlers(m);
    m.Step();
    ReturnRound(m.funcs, m.host, m.fuelLimit > 0, g, called, hs, m.fuel, m.frames, m.handlers, m.pending, m.status,
                a);
    PassedOn(frs, called, m.frames, first, n, a);
    ReadyIs(m);
    PassedSize(frs, m.frames, frs[|frs| - 1].regs[first + a]);
  }

  lemma PassedSize(before: seq<Frame>, after: seq<Frame>, v: Value)
    requires Passed(before, after, v)
    ensures |after| > 0
  {
  }

  lemma AtStart(funcs: seq<Func>, called: seq<Frame>, a: nat)
    requires |called| > 0
    requires var fr := called[|called| - 1];
      fr.func < |funcs| && fr.pc == 0 && |funcs[fr.func].insns| > 0 && funcs[fr.func].insns[0] == Ret(a)
    ensures At(funcs, called, Ret(a))
  {
  }

  lemma GoodHandlers(m: Machine)
    requires m.Valid()
    ensures HandlersOk(m.frames, m.handlers)
  {
  }

  // ---- handlers ------------------------------------------------------------------------------------------------

  lemma TryRound(funcs: seq<Func>, host: Host, limited: bool, fuel: nat, frames: seq<Frame>, handlers: seq<Handler>,
                 fuel': nat, frames': seq<Frame>, handlers': seq<Handler>, pending': Pending, status': Status,
                 dst: nat, trapOnly: bool, d: int)
    requires Round(funcs, host, limited, fuel, frames, handlers, NoExc, fuel', frames', handlers', pending', status')
    requires At(funcs, frames, Try(dst, trapOnly, d))
    ensures status' == Running && pending' == NoExc && fuel' == fuel
    ensures var k := |frames| - 1;
      var fr := frames[k];
      && frames' == frames[k := fr.(pc := fr.pc + 1)] && 0 <= fr.pc + 1 + d
      && handlers' == handlers + [Handler(k, fr.pc + 1 + d, dst, trapOnly)]
  {
    hide Total, SumTotals, EntryRegs;
  }

  lemma ThrowRound(funcs: seq<Func>, host: Host, limited: bool, fuel: nat, frames: seq<Frame>, handlers: seq<Handler>,
                   fuel': nat, frames': seq<Frame>, handlers': seq<Handler>, pending': Pending, status': Status, a: nat)
    requires Round(funcs, host, limited, fuel, frames, handlers, NoExc, fuel', frames', handlers', pending', status')
    requires At(funcs, frames, Throw(a))
    ensures status' == Running && fuel' == fuel && handlers' == handlers
    ensures var k := |frames| - 1;
      var fr := frames[k];
      && frames' == frames[k := fr.(pc := fr.pc + 1)] && a < |fr.regs| && pending' == Exc(Thrown, fr.regs[a])
  {
    hide Total, SumTotals, EntryRegs;
  }

  /** A TRY and the throw behind it, before the dispatch. */
  method TryThrows(m: Machine, dst: nat, d: int, a: nat)
    requires Ready(m) && At(m.funcs, m.frames, Try(dst, false, d)) && ThrowFollows(m.funcs, m.frames, a)
    modifies m`frames, m`handlers, m`pending, m`top, m`cap, m`fuel, m`status, m`executed, m`paid
    ensures m.Valid() && m.status == Running && m.fuel == old(m.fuel)
    ensures Thrower(old(m.frames), m.frames, m.pending, a)
    ensures 0 <= TargetOf(old(m.frames), d)
    ensures m.handlers
         == old(m.handlers) + [Handler(|old(m.frames)| - 1, TargetOf(old(m.frames), d), dst, false)]
  {
    ghost var frs, hs, f := m.frames, m.handlers, m.fuel;
    TargetIs(frs, d);
    hide *;
    ReadyIs(m);
    m.Step();
    TryRound(m.funcs, m.host, m.fuelLimit > 0, f, frs, hs, m.fuel, m.frames, m.handlers, m.pending, m.status,
             dst, false, d);
    ghost var frs1, hs1, f1 := m.frames, m.handlers, m.fuel;
    AtThrow(m.funcs, frs, frs1, a);
    m.Step();
    ThrowRound(m.funcs, m.host, m.fuelLimit > 0, f1, frs1, hs1, m.fuel, m.frames, m.handlers, m.pending, m.status, a);
    ThrowerIs(frs, frs1, m.frames, m.pending, a);
  }

  predicate ThrowFollows(funcs: seq<Func>, frames: seq<Frame>, a: nat)
    requires |frames| > 0
  {
    var fr := frames[|frames| - 1];
    fr.func < |funcs| && fr.pc + 1 < |funcs[fr.func].insns| && funcs[fr.func].insns[fr.pc + 1] == Throw(a)
  }

  function TargetOf(frames: seq<Frame>, d: int): int
    requires |frames| > 0
  {
    frames[|frames| - 1].pc + 1 + d
  }

  lemma TargetIs(frames: seq<Frame>, d: int)
    requires |frames| > 0
    ensures TargetOf(frames, d) == frames[|frames| - 1].pc + 1 + d
  {
  }

  /** The top frame is two instructions further, and what is pending is what its register holds. */
  predicate Thrower(before: seq<Frame>, after: seq<Frame>, pending: Pending, a: nat) {
    && |before| > 0
    && var k := |before| - 1;
    a < |before[k].regs| && pending == Exc(Thrown, before[k].regs[a])
    && after == before[k := before[k].(pc := before[k].pc + 2)]
  }

  lemma ThrowerIs(frs: seq<Frame>, frs1: seq<Frame>, frs2: seq<Frame>, pending: Pending, a: nat)
    requires |frs| > 0
    requires var k := |frs| - 1;
      && frs1 == frs[k := frs[k].(pc := frs[k].pc + 1)] && frs2 == frs1[k := frs1[k].(pc := frs1[k].pc + 1)]
      && a < |frs[k].regs| && pending == Exc(Thrown, frs[k].regs[a])
    ensures Thrower(frs, frs2, pending, a)
  {
  }

  /** A TRY and a throw inside it: after the dispatch the frame goes on where the TRY said, with the thrown value in
      the register of the TRY; the handler is gone, and everything else is as it was. */
  method TryCatches(m: Machine, dst: nat, d: int, a: nat)
    requires Ready(m) && At(m.funcs, m.frames, Try(dst, false, d)) && ThrowFollows(m.funcs, m.frames, a)
    modifies m`frames, m`handlers, m`pending, m`top, m`cap, m`fuel, m`status, m`executed, m`paid
    ensures Ready(m) && m.fuel == old(m.fuel) && m.handlers == old(m.handlers)
    ensures Resumed(old(m.frames), m.frames, d, dst, a)
  {
    ghost var frs, hs := m.frames, m.handlers;
    TryThrows(m, dst, d, a);
    ghost var h := m.handlers[|hs|];
    OwnCatches(hs, h);
    ghost var frs2, pending := m.frames, m.pending;
    hide *;
    PendingIs(frs, frs2, pending, a);
    var uncaught := m.ExcDispatch();
    ResumedAt(frs, frs2, m.frames, pending, h, d, a);
    ReadyIs(m);
  }

  lemma PendingIs(before: seq<Frame>, after: seq<Frame>, pending: Pending, a: nat)
    requires Thrower(before, after, pending, a)
    ensures |before| > 0 && a < |before[|before| - 1].regs|
    ensures pending == Exc(Thrown, before[|before| - 1].regs[a])
  {
  }

  lemma AtThrow(funcs: seq<Func>, frames: seq<Frame>, frames': seq<Frame>, a: nat)
    requires |frames| > 0 && frames' == frames[|frames| - 1 := frames[|frames| - 1].(pc := frames[|frames| - 1].pc + 1)]
    requires ThrowFollows(funcs, frames, a)
    ensures At(funcs, frames', Throw(a))
  {
  }

  lemma OwnCatches(handlers: seq<Handler>, h: Handler)
    requires !h.trapOnly
    ensures CatchDepth(handlers + [h], Thrown) == |handlers| + 1 && (handlers + [h])[..|handlers|] == handlers
  {
  }

  lemma ResumedAt(frs: seq<Frame>, frs2: seq<Frame>, after: seq<Frame>, pending: Pending, h: Handler, d: int, a: nat)
    requires Thrower(frs, frs2, pending, a)
    requires var k := |frs| - 1;
      && h.frameIndex == k && h.catchPc == TargetOf(frs, d) && pending.Exc? && |frs2| > k
      && after == frs2[..k] + [Caught(frs2[k], h, CatchPayload(pending.code, pending.payload))]
    ensures Resumed(frs, after, d, h.dstReg, a) && |after| > 0
  {
    var k := |frs| - 1;
    assert frs2[..k] == frs[..k];
  }

  /** The top frame goes on at the target, with the register `dst`, if there is one, holding what `src` held. */
  predicate Resumed(before: seq<Frame>, after: seq<Frame>, d: int, dst: nat, src: nat) {
    && |after| == |before| > 0
    && var k := |before| - 1;
    var fr, was := after[k], before[k];
    && after[..k] == before[..k] && src < |was.regs| && 0 <= was.pc + 1 + d && |fr.regs| == |was.regs|
    && fr.(regs := was.regs) == was.(pc := was.pc + 1 + d)
    && (forall r :: 0 <= r < |was.regs| && r != dst ==> fr.regs[r] == was.regs[r])
    && (dst < |was.regs| ==>
          fr.regs[dst] == if was.regs[src] == I32(4) then TrapRecord(true, Thrown) else was.regs[src])
  }
}
