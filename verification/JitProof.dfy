/** Compiled code and interpreter agree: exactly when at one instruction, and so over whole runs. */
module JitProof {
  import opened Base
  import opened JitIr
  import opened JitSim

  // ---- the code of one instruction -----------------------------------------------------------------------

  lemma OwnCode(insns: seq<Insn>, pc: nat)
    requires Lowers(insns) && pc < |insns| && !insns[pc].Case?
    ensures var ir, s, own := LoweredUpTo(insns, |insns|), Start(insns, pc), Lowered(insns, pc);
      && own != [] && s + |own| == Start(insns, pc + 1) <= |ir|
      && ir[s] == own[0] && (|own| >= 2 ==> ir[s + 1] == own[1])
      && ir[s..s + |own|] == own && own[0].bcPc == pc
  {
    hide Lowered, TableOk, LoweredUpTo;
    CodeAt(insns, pc);
    Shape(insns, pc);
    var ir, s, own := LoweredUpTo(insns, |insns|), Start(insns, pc), Lowered(insns, pc);
    assert ir[s..s + |own|][0] == ir[s];
    assert |own| >= 2 ==> ir[s..s + |own|][1] == ir[s + 1];
  }

  /** The chain of comparisons picks what the interpreter's search picks. */
  lemma {:induction false} ChainIsDelta(insns: seq<Insn>, pc: nat, ir: seq<Ir>, s: nat, kind: Word, i: nat)
    requires pc < |insns| && insns[pc].Switch? && TableOk(insns, pc) && i <= insns[pc].n
    requires s + 1 + insns[pc].n <= |ir|
    requires ir[s + 1..s + 1 + insns[pc].n] == Cases(insns, pc, insns[pc].n)
    ensures Chain(ir, s + 1 + i, insns[pc].n - i, kind, insns[pc].d) == Delta(insns, pc, kind, i)
    decreases insns[pc].n - i
  {
    if i < insns[pc].n {
      ChainIsDelta(insns, pc, ir, s, kind, i + 1);
      assert ir[s + 1..s + 1 + insns[pc].n][i] == EntryOf(insns[pc + 1 + i], pc);
    }
  }

  lemma {:induction false} DeltaLands(insns: seq<Insn>, pc: nat, kind: Word, i: nat)
    requires Lowers(insns) && Emits(insns) && pc < |insns| && insns[pc].Switch? && i <= insns[pc].n
    ensures Lands(insns, pc + 1 + insns[pc].n + Delta(insns, pc, kind, i))
    decreases insns[pc].n - i
  {
    if i < insns[pc].n {
      DeltaLands(insns, pc, kind, i + 1);
    }
  }

  // ---- agreement at one instruction ----------------------------------------------------------------------

  /** The instructions that neither branch nor leave. */
  predicate Straight(ins: Insn) {
    !ins.Jmp? && !ins.JmpIf? && !ins.Switch? && !ins.Case? && !ins.Unsupported?
  }

  lemma StraightAgrees(f: Code, limited: bool, pc: nat, regs: Regs, fuel: nat)
    requires Lowers(f.insns) && pc < |f.insns| && Straight(f.insns[pc]) && Faithful(f, limited, pc)
    ensures SameOut(f, limited, BcStep(f, limited, Config(pc, regs, fuel)),
                    IrBlock(f, Compiled(f), limited, Config(Start(f.insns, pc), regs, fuel)))
  {
    hide Lowers, LoweredUpTo, TableOk, Masked, Signed, SignExtend8, Landing;
    OwnCode(f.insns, pc);
    match f.insns[pc]
    case Bin(bin, a, x, y) => SelfSub(regs[x], f.kinds(a));
    case BinImm(bin, a, x, y) => SelfSub(regs[x], f.kinds(a));
    case _ =>
  }

  /** Zero is not changed by narrowing. */
  lemma SelfSub(x: Word, k: Kind)
    ensures Masked(Apply(Sub, x, x), k) == Apply(Sub, x, x)
    ensures Masked(Apply(Mul, x, SignExtend8(0)), k) == Apply(Mul, x, SignExtend8(0))
    ensures forall v :: Masked(v, Full) == v
  {
  }

  /** The emitted switch goes where the interpreter's goes, except past a fuel check. */
  lemma SwitchBlock(f: Code, limited: bool, pc: nat, regs: Regs, fuel: nat)
    requires Lowers(f.insns) && Emits(f.insns) && pc < |f.insns| && f.insns[pc].Switch?
    ensures var target := Target(f.insns, pc, regs[f.insns[pc].a]);
      && Lands(f.insns, target)
      && BcStep(f, limited, Config(pc, regs, fuel)) == Go(Config(target, regs, fuel))
      && IrBlock(f, Compiled(f), limited, Config(Start(f.insns, pc), regs, fuel))
           == Go(Config(Landing(f.insns, target), regs, fuel))
  {
    hide LoweredUpTo, TableOk, Landing, Emits, Lands, Delta, Chain, Cases;
    var insns, s, ir := f.insns, Start(f.insns, pc), Compiled(f);
    OwnCode(insns, pc);
    var kind, own := regs[insns[pc].a], Lowered(insns, pc);
    DeltaLands(insns, pc, kind, 0);
    SwitchTail(insns, pc, ir, s);
    ChainIsDelta(insns, pc, ir, s, kind, 0);
    LandsIs(insns, Target(insns, pc, kind));
  }

  lemma SwitchTail(insns: seq<Insn>, pc: nat, ir: seq<Ir>, s: nat)
    requires pc < |insns| && insns[pc].Switch? && TableOk(insns, pc)
    requires s + |Lowered(insns, pc)| <= |ir| && ir[s..s + |Lowered(insns, pc)|] == Lowered(insns, pc)
    ensures s + 1 + insns[pc].n <= |ir| && ir[s + 1..s + 1 + insns[pc].n] == Cases(insns, pc, insns[pc].n)
  {
    var own := Lowered(insns, pc);
    assert own[1..] == Cases(insns, pc, insns[pc].n);
    assert ir[s..s + |own|][1..] == ir[s + 1..s + |own|];
  }

  lemma LandsIs(insns: seq<Insn>, target: int)
    requires Lands(insns, target)
    ensures 0 <= target < |insns| && !insns[target].Case?
  {
  }

  /** A landing place is the start unless there is a fuel check to skip. */
  lemma LandingPlaces(f: Code, limited: bool, target: nat)
    requires Lowers(f.insns) && target < |f.insns|
    ensures Places(f, limited, target, Landing(f.insns, target)) <==> !Skips(f.insns, limited, target)
  {
  }

  lemma SwitchAgrees(f: Code, limited: bool, pc: nat, regs: Regs, fuel: nat)
    requires Lowers(f.insns) && Emits(f.insns) && pc < |f.insns| && f.insns[pc].Switch?
    ensures SameOut(f, limited, BcStep(f, limited, Config(pc, regs, fuel)),
                    IrBlock(f, Compiled(f), limited, Config(Start(f.insns, pc), regs, fuel)))
            <==> !Skips(f.insns, limited, Target(f.insns, pc, regs[f.insns[pc].a]))
  {
    hide BcStep, IrBlock, Places, Skips, Landing, Target, Emits;
    SwitchBlock(f, limited, pc, regs, fuel);
    LandsIs(f.insns, Target(f.insns, pc, regs[f.insns[pc].a]));
    LandingPlaces(f, limited, Target(f.insns, pc, regs[f.insns[pc].a]));
  }

  /** Both jumps, taken or not. */
  lemma JumpAgrees(f: Code, limited: bool, pc: nat, regs: Regs, fuel: nat)
    requires Lowers(f.insns) && Emits(f.insns) && pc < |f.insns| && (f.insns[pc].Jmp? || f.insns[pc].JmpIf?)
    ensures var ins := f.insns[pc];
      var target := pc + 1 + ins.d;
      var taken := if ins.Jmp? then !BackJmp(f.insns, pc) || !limited || fuel > 0 else regs[ins.a] != 0;
      SameOut(f, limited, BcStep(f, limited, Config(pc, regs, fuel)),
              IrBlock(f, Compiled(f), limited, Config(Start(f.insns, pc), regs, fuel)))
      <==> !taken || !Skips(f.insns, limited, target)
  {
    hide LoweredUpTo, TableOk, Landing, Skips, Places;
    OwnCode(f.insns, pc);
    var target := pc + 1 + f.insns[pc].d;
    assert Lands(f.insns, target);
    hide Emits, Lowers;
    LandingPlaces(f, limited, target);
    StartPlaces(f, limited, pc + 1);
  }

  lemma StartPlaces(f: Code, limited: bool, pc: nat)
    requires Lowers(f.insns) && pc <= |f.insns|
    ensures Places(f, limited, pc, Start(f.insns, pc))
  {
  }

  /** At a faithful instruction the two sides agree. */
  lemma FaithfulAgrees(f: Code, limited: bool, pc: nat)
    requires Lowers(f.insns) && Emits(f.insns) && pc < |f.insns| && !f.insns[pc].Case?
    requires Faithful(f, limited, pc)
    ensures AgreesAt(f, limited, pc)
  {
    hide BcStep, IrBlock, SameOut, Emits;
    forall regs: Regs, fuel: nat
      ensures SameOut(f, limited, BcStep(f, limited, Config(pc, regs, fuel)),
                      IrBlock(f, Compiled(f), limited, Config(Start(f.insns, pc), regs, fuel)))
    {
      if f.insns[pc].Switch? {
        SwitchAgrees(f, limited, pc, regs, fuel);
      } else if f.insns[pc].Jmp? || f.insns[pc].JmpIf? {
        JumpAgrees(f, limited, pc, regs, fuel);
      } else {
        StraightAgrees(f, limited, pc, regs, fuel);
      }
    }
  }

  // ---- and only there ------------------------------------------------------------------------------------

  function All(v: Word): Regs {
    seq(256, _ => v)
  }

  /** Register contents for which a result is changed by narrowing it. */
  function WideRegs(ins: Insn): Regs
    requires ins.Bin? || ins.BinImm?
  {
    var bin := ins.bin;
    if ins.Bin? then
      if bin == Add then All(0x1_0000) else if bin == Sub then All(0)[ins.b := 0x1_0000] else All(0x100)
    else
      All(if bin == Add then (0x1_0000 - SignExtend8(ins.c)) % U32
          else if bin == Sub then (0x1_0000 + SignExtend8(ins.c)) % U32
          else 0x1_0000)
  }

  lemma Multiples(m: int)
    ensures (m * 0x1_0000) % 0x1_0000 == 0 && (m * 0x1_0000) % 0x100 == 0
  {
  }

  /** Half a word is a multiple of neither width, unless it is zero. */
  lemma HalvesChange(v: Word, k: Kind)
    requires k != Full && v != 0 && v % 0x1_0000 == 0
    ensures Masked(v, k) != v
  {
    assert v == (v / 0x1_0000) * 0x1_0000;
    Multiples(v / 0x1_0000);
  }

  lemma TimesHalf(y: Reg)
    requires y != 0
    ensures var v := Apply(Mul, 0x1_0000, SignExtend8(y)); v != 0 && v % 0x1_0000 == 0
  {
    var m := if y < 128 then y else y + 0xFF00;
    var k := if y < 128 then 0 else 0xFFFF;
    assert 0x1_0000 * SignExtend8(y) == k * U32 + m * 0x1_0000;
    assert 0 < m * 0x1_0000 < U32;
    assert (k * U32 + m * 0x1_0000) % U32 == m * 0x1_0000;
    Multiples(m);
  }

  lemma WideChanges(ins: Insn, k: Kind)
    requires k != Full
    requires ins.Bin? ==> !(ins.bin == Sub && ins.b == ins.c)
    requires ins.BinImm? ==> !(ins.bin == Mul && ins.c == 0)
    requires ins.Bin? || ins.BinImm?
    ensures var r := WideRegs(ins);
      var v := Apply(ins.bin, r[ins.b], if ins.Bin? then r[ins.c] else SignExtend8(ins.c));
      Masked(v, k) != v
  {
    var r := WideRegs(ins);
    var v := Apply(ins.bin, r[ins.b], if ins.Bin? then r[ins.c] else SignExtend8(ins.c));
    if ins.BinImm? && ins.bin == Mul {
      TimesHalf(ins.c);
    } else {
      assert v in {0x1_0000, 0x2_0000};
    }
    HalvesChange(v, k);
  }

  /** Register contents that tell a comparison with register 255 from one with zero. */
  function CompareRegs(ins: Insn): Regs
    requires ins.Cmp?
  {
    All(0)[255 := if ins.b == 255 && ins.cmp == Lt then 0xFFFF_FFFF else 1]
  }

  lemma NarrowDisagrees(f: Code, limited: bool, pc: nat)
    requires Lowers(f.insns) && pc < |f.insns| && !Faithful(f, limited, pc)
    requires f.insns[pc].Bin? || f.insns[pc].BinImm? || f.insns[pc].Cmp?
    ensures !AgreesAt(f, limited, pc)
  {
    hide Lowers, LoweredUpTo, TableOk, Places, Masked, Apply, SignExtend8;
    OwnCode(f.insns, pc);
    var ins := f.insns[pc];
    var r := if ins.Cmp? then CompareRegs(ins) else WideRegs(ins);
    if !ins.Cmp? {
      WideChanges(ins, f.kinds(ins.a));
    }
    var bc := BcStep(f, limited, Config(pc, r, 0));
    var ir := IrBlock(f, Compiled(f), limited, Config(Start(f.insns, pc), r, 0));
    assert bc.next.regs[ins.a] != ir.next.regs[ins.a];
    assert !SameOut(f, limited, bc, ir);
  }

  lemma BranchDisagrees(f: Code, limited: bool, pc: nat)
    requires Lowers(f.insns) && Emits(f.insns) && pc < |f.insns| && !Faithful(f, limited, pc)
    requires f.insns[pc].Jmp? || f.insns[pc].JmpIf? || f.insns[pc].Switch?
    ensures !AgreesAt(f, limited, pc)
  {
    hide BcStep, IrBlock, SameOut, Emits, LoweredUpTo;
    var kind: Word := 1;
    if f.insns[pc].Switch? {
      kind :| Skips(f.insns, limited, Target(f.insns, pc, kind));
      SwitchAgrees(f, limited, pc, All(kind), 1);
    } else {
      JumpAgrees(f, limited, pc, All(kind), 1);
    }
    var bc := BcStep(f, limited, Config(pc, All(kind), 1));
    var ir := IrBlock(f, Compiled(f), limited, Config(Start(f.insns, pc), All(kind), 1));
    assert !SameOut(f, limited, bc, ir);
  }

  /** Compiled code does what the interpreter does at an instruction exactly if the instruction is faithful. */
  lemma AgreesExactly(f: Code, limited: bool, pc: nat)
    requires Lowers(f.insns) && Emits(f.insns) && pc < |f.insns| && !f.insns[pc].Case?
    ensures AgreesAt(f, limited, pc) <==> Faithful(f, limited, pc)
  {
    hide AgreesAt, Emits, Lowers;
    if Faithful(f, limited, pc) {
      FaithfulAgrees(f, limited, pc);
    } else if f.insns[pc].Bin? || f.insns[pc].BinImm? || f.insns[pc].Cmp? {
      NarrowDisagrees(f, limited, pc);
    } else {
      BranchDisagrees(f, limited, pc);
    }
  }

  // ---- runs ----------------------------------------------------------------------------------------------

  ghost function BcRun(f: Code, limited: bool, c: Config, n: nat): Out
    requires Lowers(f.insns)
    decreases n
  {
    if n == 0 then Go(c)
    else
      match BcStep(f, limited, c)
      case Go(next) => BcRun(f, limited, next, n - 1)
      case out => out
  }

  ghost function IrRun(f: Code, limited: bool, c: Config, n: nat): Out
    requires Lowers(f.insns)
    decreases n
  {
    if n == 0 then Go(c)
    else
      match IrBlock(f, Compiled(f), limited, c)
      case Go(next) => IrRun(f, limited, next, n - 1)
      case out => out
  }

  ghost predicate AllFaithful(f: Code, limited: bool)
    requires Lowers(f.insns)
  {
    forall pc :: 0 <= pc < |f.insns| ==> Faithful(f, limited, pc)
  }

  /** Control never comes to an entry of a table. */
  lemma NeverInTable(f: Code, limited: bool, c: Config)
    requires Lowers(f.insns) && Emits(f.insns) && TablesOnly(f.insns)
    requires c.at < |f.insns| && !f.insns[c.at].Case?
    ensures var out := BcStep(f, limited, c);
      out.Go? && out.next.at < |f.insns| ==> !f.insns[out.next.at].Case?
  {
    hide LoweredUpTo, TableOk, Masked, Apply, Compare, SignExtend8, Delta, Target;
    if f.insns[c.at].Switch? {
      DeltaLands(f.insns, c.at, c.regs[f.insns[c.at].a], 0);
      SwitchBlock(f, limited, c.at, c.regs, c.fuel);
      LandsIs(f.insns, Target(f.insns, c.at, c.regs[f.insns[c.at].a]));
    }
  }

  /** Without a fuel limit it makes no difference whether a fuel check is passed or skipped. */
  lemma SkipIsFree(f: Code, pc: nat, regs: Regs, fuel: nat)
    requires Lowers(f.insns) && BackJmp(f.insns, pc)
    ensures IrBlock(f, Compiled(f), false, Config(Landing(f.insns, pc), regs, fuel))
            == IrBlock(f, Compiled(f), false, Config(Start(f.insns, pc), regs, fuel))
  {
    hide LoweredUpTo, TableOk, Lowers;
    OwnCode(f.insns, pc);
  }

  lemma StepAgrees(f: Code, limited: bool, c: Config, c': Config)
    requires Lowers(f.insns) && Emits(f.insns) && TablesOnly(f.insns) && AllFaithful(f, limited)
    requires Same(f, limited, c, c') && (c.at < |f.insns| ==> !f.insns[c.at].Case?)
    ensures SameOut(f, limited, BcStep(f, limited, c), IrBlock(f, Compiled(f), limited, c'))
  {
    hide BcStep, IrBlock, SameOut, Emits, TablesOnly, Faithful, LoweredUpTo, TableOk;
    if c.at < |f.insns| {
      AgreesExactly(f, limited, c.at);
      if c'.at != Start(f.insns, c.at) {
        SkipIsFree(f, c.at, c.regs, c.fuel);
      }
      assert c == Config(c.at, c.regs, c.fuel) && c' == Config(c'.at, c.regs, c.fuel);
    } else {
      EndAgrees(f, limited, c, c');
    }
  }

  lemma EndAgrees(f: Code, limited: bool, c: Config, c': Config)
    requires Lowers(f.insns) && c.at == |f.insns| && c'.at == Start(f.insns, c.at)
    ensures SameOut(f, limited, BcStep(f, limited, c), IrBlock(f, Compiled(f), limited, c'))
  {
  }

  /** Whole runs: from corresponding places, any number of instructions has the same outcome, with the same
      registers, the same fuel left, and corresponding places. */
  lemma {:induction false} RunsAgree(f: Code, limited: bool, c: Config, c': Config, n: nat)
    requires Lowers(f.insns) && Emits(f.insns) && TablesOnly(f.insns) && AllFaithful(f, limited)
    requires Same(f, limited, c, c') && (c.at < |f.insns| ==> !f.insns[c.at].Case?)
    ensures SameOut(f, limited, BcRun(f, limited, c, n), IrRun(f, limited, c', n))
    decreases n
  {
    hide BcStep, IrBlock, Emits, TablesOnly, AllFaithful, Places, LoweredUpTo, TableOk, Lowers;
    if n > 0 {
      StepAgrees(f, limited, c, c');
      var out := BcStep(f, limited, c);
      if out.Go? {
        NextPlace(f, limited, c, c');
        RunsAgree(f, limited, out.next, IrBlock(f, Compiled(f), limited, c').next, n - 1);
      }
    }
  }

  lemma NextPlace(f: Code, limited: bool, c: Config, c': Config)
    requires Lowers(f.insns) && Emits(f.insns) && TablesOnly(f.insns) && Same(f, limited, c, c')
    requires c.at < |f.insns| ==> !f.insns[c.at].Case?
    ensures var out := BcStep(f, limited, c);
      out.Go? && out.next.at < |f.insns| ==> !f.insns[out.next.at].Case?
  {
    if c.at < |f.insns| {
      NeverInTable(f, limited, c);
    }
  }

  lemma SelfJump(f: Code, pc: nat, regs: Regs, fuel: nat)
    requires Lowers(f.insns) && pc < |f.insns| && f.insns[pc] == Jmp(-1)
    ensures BcStep(f, true, Config(pc, regs, fuel))
            == if fuel == 0 then OutOfFuel else Go(Config(pc, regs, fuel - 1))
    ensures fuel > 0 ==> IrBlock(f, Compiled(f), true, Config(Start(f.insns, pc), regs, fuel))
                         == Go(Config(Landing(f.insns, pc), regs, fuel - 1))
    ensures IrBlock(f, Compiled(f), true, Config(Landing(f.insns, pc), regs, fuel))
            == Go(Config(Landing(f.insns, pc), regs, fuel))
  {
    hide LoweredUpTo, TableOk, Lowers;
    OwnCode(f.insns, pc);
  }

  /** Skipping the check is what a limit notices: an instruction that jumps to itself uses up its fuel in the
      interpreter, but costs the compiled code one unit, however long it runs. */
  lemma {:induction false} LoopToItself(f: Code, pc: nat, regs: Regs, fuel: nat, n: nat)
    requires Lowers(f.insns) && pc < |f.insns| && f.insns[pc] == Jmp(-1)
    ensures BcRun(f, true, Config(pc, regs, fuel), n)
            == if n > fuel then OutOfFuel else Go(Config(pc, regs, fuel - n))
    ensures n > 0 && fuel > 0 ==>
      IrRun(f, true, Config(Start(f.insns, pc), regs, fuel), n) == Go(Config(Landing(f.insns, pc), regs, fuel - 1))
    ensures IrRun(f, true, Config(Landing(f.insns, pc), regs, fuel), n) == Go(Config(Landing(f.insns, pc), regs, fuel))
    decreases n
  {
    hide BcStep, IrBlock, LoweredUpTo, Lowers, Landing;
    if n > 0 {
      SelfJump(f, pc, regs, fuel);
      LoopToItself(f, pc, regs, fuel, n - 1);
      if fuel > 0 {
        LoopToItself(f, pc, regs, fuel - 1, n - 1);
      }
    }
  }
}
