/** Programs that show what the results about fuel and frames leave open: each breaks one condition only. */
module VmRuns {
  import opened FrameLayout
  import opened VmState
  import opened Vm

  /** Registers start as zero, and any other instruction yields one, which is true. */
  const HOST := Host(v => v != I32(0), v => 0, (id, regs) => Store(I32(1)), k => I32(0), (f, g, first, n) => true)

  // ---- fuel: conditional jumps back ------------------------------------------------------------------------

  const JMP_IF_BACK: seq<Func> := [Func([Word32], [Plain(0, 0), JmpIf(0, -1)])]

  lemma JmpIfBackBreaksOne()
    ensures ProgramOk(JMP_IF_BACK) && NoTry(JMP_IF_BACK) && NoTailCall(JMP_IF_BACK) && !NoJmpIfBack(JMP_IF_BACK)
    ensures NoSwitchBack(JMP_IF_BACK)
  {
    assert JMP_IF_BACK[0].insns[1] == JmpIf(0, -1);
  }

  /** A conditional jump to itself: whatever the fuel, it runs for as many rounds as one cares to wait, and
      none of the fuel is used. */
  method JmpIfBackNeverStops(n: nat, rounds: nat) returns (m: Machine)
    requires n > 0
    ensures fresh(m) && m.funcs == JMP_IF_BACK && m.fuelLimit == n
    ensures m.status == Running && m.executed == rounds && m.fuel == n
  {
    hide ProgramOk, NoTry, NoTailCall, NoJmpIfBack, NoSwitchBack, ForwardOnly, Machine.Measure;
    JmpIfBackBreaksOne();
    m := new Machine(JMP_IF_BACK, HOST, n, 0);
    hide Machine.Valid, EntryRegs, Total, Contiguous, SumTotals, Round, SpinsAt, Due;
    if rounds == 0 { return; }
    ghost var first := m.frames;
    m.Step();
    ConditionIsTrue(first, n, m.fuel, m.frames, m.handlers, m.pending, m.status);
    m.Spin(rounds - 1);
  }

  lemma ConditionIsTrue(frames: seq<Frame>, n: nat, fuel': nat, frames': seq<Frame>, handlers': seq<Handler>,
                        pending': Pending, status': Status)
    requires |frames| == 1 && frames[0].func == 0 && frames[0].pc == 0 && |frames[0].regs| == 1
    requires Round(JMP_IF_BACK, HOST, true, n, frames, [], NoExc, fuel', frames', handlers', pending', status')
    ensures SpinsAt(JMP_IF_BACK, HOST, frames') && fuel' == n && pending' == NoExc && status' == Running
  {
  }

  // ---- fuel: switches back ---------------------------------------------------------------------------------

  const SWITCH_BACK: seq<Func> := [Func([Word32], [Switch(0, 0, -1)])]

  lemma SwitchBackBreaksOne()
    ensures ProgramOk(SWITCH_BACK) && NoTry(SWITCH_BACK) && NoTailCall(SWITCH_BACK) && NoJmpIfBack(SWITCH_BACK)
    ensures !NoSwitchBack(SWITCH_BACK)
  {
    assert SWITCH_BACK[0].insns[0] == Switch(0, 0, -1);
  }

  /** So does a switch without entries whose default leads back to it. */
  method SwitchBackNeverStops(n: nat, rounds: nat) returns (m: Machine)
    requires n > 0
    ensures fresh(m) && m.funcs == SWITCH_BACK && m.fuelLimit == n
    ensures m.status == Running && m.executed == rounds && m.fuel == n
  {
    SwitchBackBreaksOne();
    m := new Machine(SWITCH_BACK, HOST, n, 0);
    hide Machine.Valid, EntryRegs, Total, Contiguous, SumTotals;
    m.Spin(rounds);
  }

  // ---- fuel: tail calls ------------------------------------------------------------------------------------

  const TAIL_CALL: seq<Func> := [Func([Word32], [TailCall(0, 0, 0)])]

  lemma TailCallBreaksOne()
    ensures ProgramOk(TAIL_CALL) && NoTry(TAIL_CALL) && !NoTailCall(TAIL_CALL) && NoJmpIfBack(TAIL_CALL)
    ensures NoSwitchBack(TAIL_CALL)
  {
    assert TAIL_CALL[0].insns[0] == TailCall(0, 0, 0);
  }

  /** A tail call of the function by itself does the same. */
  method TailCallNeverStops(n: nat, rounds: nat) returns (m: Machine)
    requires n > 0
    ensures fresh(m) && m.funcs == TAIL_CALL && m.fuelLimit == n
    ensures m.status == Running && m.executed == rounds && m.fuel == n
  {
    TailCallBreaksOne();
    m := new Machine(TAIL_CALL, HOST, n, 0);
    hide Machine.Valid, EntryRegs, Total;
    var i := 0;
    while i < rounds
      invariant i <= rounds && fresh(m) && m.Valid()
      invariant m.status == Running && m.pending == NoExc && m.handlers == [] && m.fuel == n && m.executed == i
      invariant |m.frames| == 1 && m.frames[0].func == 0 && m.frames[0].pc == 0
    {
      m.Step();
      i := i + 1;
    }
  }

  // ---- fuel: handlers --------------------------------------------------------------------------------------

  const CATCH_FUEL: seq<Func> := [Func([Dynamic], [Try(0, false, -1), Jmp(-1), EndTry])]

  lemma CatchFuelBreaksOne()
    ensures ProgramOk(CATCH_FUEL) && !NoTry(CATCH_FUEL) && NoTailCall(CATCH_FUEL) && NoJmpIfBack(CATCH_FUEL)
    ensures NoSwitchBack(CATCH_FUEL)
  {
    assert CATCH_FUEL[0].insns[0] == Try(0, false, -1);
  }

  /** Where the loop can be: before the TRY; in the jump to itself; or with its fuel used up. */
  predicate InLoop(frames: seq<Frame>, handlers: seq<Handler>, pending: Pending, fuel: nat, rounds: nat, n: nat) {
    && |frames| == 1 && frames[0].func == 0 && |frames[0].regs| == 1
    && if rounds == 0 then frames[0].pc == 0 && handlers == [] && pending == NoExc && fuel == n
       else
         && handlers == [Handler(0, 0, 0, false)]
         && fuel == (if rounds > n then 0 else n + 1 - rounds)
         && (if pending == NoExc then frames[0].pc == 1
             else rounds > n && frames[0].pc == 2 && pending == Exc(Fuel, I32(CodeNumber(Fuel))))
  }

  /** Every round leads from one of these states to another. */
  lemma LoopGoesOn(frames: seq<Frame>, handlers: seq<Handler>, pending: Pending, fuel: nat, rounds: nat, n: nat,
                   frames': seq<Frame>, handlers': seq<Handler>, pending': Pending, fuel': nat, status': Status)
    requires InLoop(frames, handlers, pending, fuel, rounds, n)
    requires Round(CATCH_FUEL, HOST, true, fuel, frames, handlers, pending,
                   fuel', frames', handlers', pending', status')
    ensures InLoop(frames', handlers', pending', fuel', rounds + 1, n) && status' == Running
  {
    hide CatchPayload;
    if pending.Exc? {
      CatchStep(handlers, pending.code);
    }
  }

  /** The trap that reports the end of the fuel can be caught like any other, and then the program goes on: it
      runs for any number of rounds, and with no fuel left after the first ones. */
  method CaughtFuelNeverStops(n: nat, rounds: nat) returns (m: Machine)
    requires n > 0
    ensures fresh(m) && m.funcs == CATCH_FUEL && m.fuelLimit == n
    ensures m.status == Running && m.executed == rounds
    ensures rounds > n ==> m.fuel == 0
  {
    hide ProgramOk, NoTry, NoTailCall, NoJmpIfBack, NoSwitchBack, ForwardOnly, Machine.Measure;
    CatchFuelBreaksOne();
    m := new Machine(CATCH_FUEL, HOST, n, 0);
    hide Machine.Valid, EntryRegs, Total, Round, InLoop, Due;
    var i := 0;
    while i < rounds
      invariant i <= rounds && fresh(m) && m.Valid() && m.executed == i && m.status == Running
      invariant InLoop(m.frames, m.handlers, m.pending, m.fuel, i, n)
    {
      ghost var frs, hs, p, f := m.frames, m.handlers, m.pending, m.fuel;
      m.Step();
      LoopGoesOn(frs, hs, p, f, i, n, m.frames, m.handlers, m.pending, m.fuel, m.status);
      i := i + 1;
    }
  }

  // ---- jumps into tables -----------------------------------------------------------------------------------

  const INTO_TABLE: seq<Func> := [Func([Word32], [Jmp(1), Switch(0, 1, 0), Case(0, 0)])]

  /** A jump to an entry of a table is in range, which is all that is checked of it; the entry panics. */
  method JumpIntoTablePanics() returns (m: Machine)
    ensures fresh(m) && m.funcs == INTO_TABLE && m.status == Panicked
  {
    TableIsOk();
    m := new Machine(INTO_TABLE, HOST, 0, 0);
    hide Machine.Valid, EntryRegs, Total, Contiguous, SumTotals, Due;
    m.Step();
    m.Step();
  }

  lemma TableIsOk()
    ensures ProgramOk(INTO_TABLE)
  {
    assert INTO_TABLE[0].insns[2] == Case(0, 0);
  }

  // ---- frames: a tail call that shrinks --------------------------------------------------------------------

  const SHRINK: seq<Func> :=
    [Func([Word32, Word32], [TailCall(1, 0, 1)]), Func([Word32], [Call(0, 1, 0, 0)])]

  /** Two rounds, a tail call into a smaller function and a call, lead to two live frames in the same bytes. */
  method FramesOverlap() returns (m: Machine)
    ensures fresh(m) && m.Valid() && m.funcs == SHRINK && m.status == Running
    ensures |m.frames| == 2
    ensures m.frames[0].mem == m.frames[1].mem == 4 && m.frames[0].total == m.frames[1].total == 4
    ensures !Disjoint(m.frames)
  {
    ShrinkIsOk();
    m := new Machine(SHRINK, HOST, 0, 0);
    hide Machine.Valid, Round, Contiguous, EntryRegs, Total, Disjoint;
    ghost var first := m.frames;
    m.Step();
    Shrunk(first, m.fuel, m.frames, m.handlers, m.pending, m.status);
    ghost var second := m.frames;
    m.Step();
    Called(second, m.fuel, m.frames, m.handlers, m.pending, m.status);
  }

  lemma Shrunk(frames: seq<Frame>, fuel': nat, frames': seq<Frame>, handlers': seq<Handler>, pending': Pending,
               status': Status)
    requires |frames| == 1 && frames[0].func == 0 && frames[0].pc == 0 && |frames[0].regs| == 2
    requires frames[0].mem == 0 && frames[0].total == 8
    requires Round(SHRINK, HOST, false, 0, frames, [], NoExc, fuel', frames', handlers', pending', status')
    ensures status' == Running && handlers' == [] && pending' == NoExc && fuel' == 0
    ensures |frames'| == 1 && frames'[0].func == 1 && frames'[0].pc == 0 && |frames'[0].regs| == 1
    ensures frames'[0].mem == 4 && frames'[0].total == 4
  {
    ShrinkIsOk();
    hide Total, EntryRegs;
  }

  lemma Called(frames: seq<Frame>, fuel': nat, frames': seq<Frame>, handlers': seq<Handler>, pending': Pending,
               status': Status)
    requires |frames| == 1 && frames[0].func == 1 && frames[0].pc == 0 && |frames[0].regs| == 1
    requires frames[0].mem == 4 && frames[0].total == 4
    requires Round(SHRINK, HOST, false, 0, frames, [], NoExc, fuel', frames', handlers', pending', status')
    ensures status' == Running && |frames'| == 2 && !Disjoint(frames')
    ensures frames'[0].mem == frames'[1].mem == 4 && frames'[0].total == frames'[1].total == 4
  {
    ShrinkIsOk();
    hide Total, EntryRegs;
    var fetched := frames[0].(pc := 1);
    assert frames[0 := fetched] == [fetched];
    assert SumTotals([fetched]) == 4 by { SumAppend([], fetched); assert [] + [fetched] == [fetched]; }
    assert frames'[0] == fetched;
    assert !Apart(frames'[0], frames'[1]);
  }

  lemma ShrinkIsOk()
    ensures ProgramOk(SHRINK) && Total([Word32, Word32]) == 8 && Total([Word32]) == 4
  {
    assert [Word32, Word32][..1] == [Word32] && [Word32][..0] == [];
  }
}
