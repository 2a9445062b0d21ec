/** Running the bytecode (src/vm/ops/exec_loop.c, src/vm/ops/ops_arith.c) and running its lowered form as the
    emitter of src/jit/backend/x64/jit_x64_emit.c does, and when the two agree. */
module JitSim {
  import opened Base
  import opened JitIr

  /** Register kinds, as far as a store of a 32-bit result depends on them. */
  datatype Kind = I8 | I16 | Full

  type Regs = s: seq<Word> | |s| == 256 witness seq(256, _ => 0)

  datatype HostOut = Ok(regs: Regs) | Raise

  /** A function, and what the instructions left to the interpreter do. */
  datatype Code = Code(insns: seq<Insn>, kinds: Reg -> Kind, host: (nat, Regs) -> HostOut)

  /** `at` is a place in the bytecode or in its lowered form. */
  datatype Config = Config(at: nat, regs: Regs, fuel: nat)

  datatype Out = Go(next: Config) | Returned(v: Word) | OutOfFuel | Raised | Off

  // ---- arithmetic ----------------------------------------------------------------------------------------

  function Signed(x: Word): int {
    if x < 0x8000_0000 then x else x - U32
  }

  function Apply(bin: BinOp, x: Word, y: Word): Word {
    match bin
    case Add => (x + y) % U32
    case Sub => (x - y) % U32
    case Mul => (x * y) % U32
  }

  function Compare(cmp: CmpOp, x: Word, y: Word): Word {
    if (if cmp == Eq then x == y else Signed(x) < Signed(y)) then 1 else 0
  }

  /** `vm_store_u32_masked`. */
  function Masked(v: Word, k: Kind): Word {
    match k
    case Full => v
    case I8 => var w := v % 0x100; if w < 0x80 then w else w + (U32 - 0x100)
    case I16 => var w := v % 0x1_0000; if w < 0x8000 then w else w + (U32 - 0x1_0000)
  }

  // ---- the interpreter -----------------------------------------------------------------------------------

  function Store(c: Config, a: Reg, v: Word): Out {
    Go(Config(c.at + 1, c.regs[a := v], c.fuel))
  }

  /** A jump costs fuel if it goes back and fuel is limited. */
  function Charge(limited: bool, c: Config, next: nat): Out {
    if !limited then Go(c.(at := next))
    else if c.fuel == 0 then OutOfFuel
    else Go(c.(at := next, fuel := c.fuel - 1))
  }

  /** The distance of the first entry with that tag, or else the default. */
  function Delta(insns: seq<Insn>, pc: nat, kind: Word, i: nat): int
    requires pc < |insns| && insns[pc].Switch? && TableOk(insns, pc) && i <= insns[pc].n
    decreases insns[pc].n - i
  {
    if i == insns[pc].n then insns[pc].d
    else if insns[pc + 1 + i].tag == kind then insns[pc + 1 + i].d
    else Delta(insns, pc, kind, i + 1)
  }

  function Target(insns: seq<Insn>, pc: nat, kind: Word): int
    requires pc < |insns| && insns[pc].Switch? && TableOk(insns, pc)
  {
    pc + 1 + insns[pc].n + Delta(insns, pc, kind, 0)
  }

  function GoTo(insns: seq<Insn>, c: Config, target: int): Out {
    if 0 <= target <= |insns| then Go(c.(at := target)) else Off
  }

  /** One instruction of the interpreter. */
  ghost function BcStep(f: Code, limited: bool, c: Config): Out
    requires Lowers(f.insns)
  {
    if c.at >= |f.insns| then Off
    else
      var r := c.regs;
      match f.insns[c.at]
      case Nop => Go(c.(at := c.at + 1))
      case Mov(a, b) => Store(c, a, r[b])
      case ConstI32(a, imm) => Store(c, a, imm % U32)
      case ConstI8(a, v) => Store(c, a, SignExtend8(v))
      case ConstBool(a, v) => Store(c, a, v % 2)
      case Bin(bin, a, x, y) => Store(c, a, Masked(Apply(bin, r[x], r[y]), f.kinds(a)))
      case BinImm(bin, a, x, y) => Store(c, a, Masked(Apply(bin, r[x], SignExtend8(y)), f.kinds(a)))
      case Cmp(cmp, a, x, y) => Store(c, a, Compare(cmp, r[x], r[y]))
      case CmpImm(cmp, a, x, y) => Store(c, a, Compare(cmp, r[x], SignExtend8(y)))
      case NotBool(a, b) => Store(c, a, if r[b] == 0 then 1 else 0)
      case Jmp(d) =>
        var target := c.at + 1 + d;
        if !(0 <= target <= |f.insns|) then Off
        else if d < 0 then Charge(limited, c, target)
        else Go(c.(at := target))
      case JmpIf(a, d) => if r[a] != 0 then GoTo(f.insns, c, c.at + 1 + d) else Go(c.(at := c.at + 1))
      case Switch(a, n, d) => GoTo(f.insns, c, Target(f.insns, c.at, r[a]))
      case Case(tag, d) => Off
      case Ret(a) => Returned(r[a])
      case Other(id) =>
        (match f.host(id, r)
         case Ok(regs) => Go(Config(c.at + 1, regs, c.fuel))
         case Raise => Raised)
  }

  // ---- the lowered form ----------------------------------------------------------------------------------

  function BinOf(imm: int): BinOp {
    if imm == 1 then Sub else if imm == 2 then Mul else Add
  }

  function CmpOf(imm: int): CmpOp {
    if imm == 1 then Lt else Eq
  }

  /** A branch of emitted code. Emission fails unless every branch has somewhere to land. */
  ghost function Branch(insns: seq<Insn>, c: Config, target: int): Out
    requires Lowers(insns)
  {
    if 0 <= target < |insns| && !insns[target].Case? then Go(c.(at := Landing(insns, target))) else Off
  }

  /** The chain of comparisons emitted for a switch: `k` entries follow at `at`. */
  function Chain(ir: seq<Ir>, at: nat, k: nat, kind: Word, dflt: int): int
    requires at + k <= |ir|
    decreases k
  {
    if k == 0 then dflt
    else if ir[at].a == kind then ir[at].imm
    else Chain(ir, at + 1, k - 1, kind, dflt)
  }

  /** One site of the emitted code. Whether an operand is a register or a number is looked up in the
      bytecode, and register 255 of a comparison means zero. */
  ghost function IrStep(f: Code, ir: seq<Ir>, limited: bool, c: Config): Out
    requires Lowers(f.insns)
  {
    if c.at >= |ir| || ir[c.at].bcPc >= |f.insns| then Off
    else
      var r, site, bc := c.regs, ir[c.at], f.insns[ir[c.at].bcPc];
      match site.op
      case IrNop => Go(c.(at := c.at + 1))
      case IrMov => Store(c, site.a, r[site.b])
      case IrLoad => Store(c, site.a, site.imm % U32)
      case IrBin =>
        Store(c, site.a, Apply(BinOf(site.imm), r[site.b], if bc.BinImm? then SignExtend8(site.c) else r[site.c]))
      case IrCmp =>
        Store(c, site.a, Compare(CmpOf(site.imm), r[site.b],
          if bc.CmpImm? then SignExtend8(site.c) else if site.c == 255 then 0 else r[site.c]))
      case IrJmp => Branch(f.insns, c, site.imm)
      case IrJmpIf => if r[site.a] != 0 then Branch(f.insns, c, site.imm) else Go(c.(at := c.at + 1))
      case IrRet => Returned(r[site.a])
      case IrSlow =>
        if !bc.Other? then Off
        else
          (match f.host(bc.id, r)
           case Ok(regs) => Go(Config(c.at + 1, regs, c.fuel))
           case Raise => Raised)
      case IrFuelCheck => Charge(limited, c, c.at + 1)
      case IrSwitch =>
        if c.at + 1 + site.b > |ir| then Off
        else Branch(f.insns, c, site.bcPc + 1 + site.b + Chain(ir, c.at + 1, site.b, r[site.a], site.imm))
      case IrCase => Off
  }

  /** A site together with the fuel check in front of it, if control comes to the check. */
  ghost function IrBlock(f: Code, ir: seq<Ir>, limited: bool, c: Config): Out
    requires Lowers(f.insns)
  {
    if c.at < |ir| && ir[c.at].op.IrFuelCheck? then
      match IrStep(f, ir, limited, c)
      case Go(next) => IrStep(f, ir, limited, next)
      case out => out
    else IrStep(f, ir, limited, c)
  }

  // ---- correspondence ------------------------------------------------------------------------------------

  ghost function Compiled(f: Code): seq<Ir>
    requires Lowers(f.insns)
  {
    LoweredUpTo(f.insns, |f.insns|)
  }

  /** A place in the lowered form for a place in the bytecode: its start, or, as long as fuel is not limited,
      the place behind its fuel check. */
  ghost predicate Places(f: Code, limited: bool, pc: nat, at: nat)
    requires Lowers(f.insns)
  {
    && pc <= |f.insns|
    && (at == Start(f.insns, pc) || (!limited && pc < |f.insns| && at == Landing(f.insns, pc)))
  }

  ghost predicate Same(f: Code, limited: bool, bc: Config, ir: Config)
    requires Lowers(f.insns)
  {
    Places(f, limited, bc.at, ir.at) && bc.regs == ir.regs && bc.fuel == ir.fuel
  }

  ghost predicate SameOut(f: Code, limited: bool, bc: Out, ir: Out)
    requires Lowers(f.insns)
  {
    match bc
    case Go(next) => ir.Go? && Same(f, limited, next, ir.next)
    case out => ir == out
  }

  /** May control go to `target`? It must be in the code and not in a table: otherwise emission fails. */
  predicate Lands(insns: seq<Insn>, target: int) {
    0 <= target < |insns| && !insns[target].Case?
  }

  /** Emission succeeds: every branch of the function can be patched. */
  ghost predicate Emits(insns: seq<Insn>)
    requires Lowers(insns)
  {
    forall pc :: 0 <= pc < |insns| ==>
      match insns[pc]
      case Jmp(d) => Lands(insns, pc + 1 + d)
      case JmpIf(a, d) => Lands(insns, pc + 1 + d)
      case Switch(a, n, d) =>
        Lands(insns, pc + 1 + n + d) && forall i :: pc < i <= pc + n ==> Lands(insns, pc + 1 + n + insns[i].d)
      case _ => true
  }

  /** The validator allows table entries only behind a switch. */
  ghost predicate TablesOnly(insns: seq<Insn>) {
    forall pc :: 0 <= pc < |insns| && insns[pc].Case? ==> pc > 0 && (insns[pc - 1].Switch? || insns[pc - 1].Case?)
  }

  /** Can a jump from here to `target` change what is charged? */
  predicate Skips(insns: seq<Insn>, limited: bool, target: int) {
    limited && BackJmp(insns, target)
  }

  /** When the code lowered for an instruction does what the instruction does: the result is not narrowed,
      register 255 is not compared with, and while fuel is limited no branch lands on a backward JMP. */
  ghost predicate Faithful(f: Code, limited: bool, pc: nat)
    requires Lowers(f.insns) && pc < |f.insns|
  {
    match f.insns[pc]
    case Bin(bin, a, x, y) => f.kinds(a) == Full || (bin == Sub && x == y)
    case BinImm(bin, a, x, y) => f.kinds(a) == Full || (bin == Mul && y == 0)
    case Cmp(cmp, a, x, y) => y != 255
    case Jmp(d) => !Skips(f.insns, limited, pc + 1 + d)
    case JmpIf(a, d) => !Skips(f.insns, limited, pc + 1 + d)
    case Switch(a, n, d) => forall kind: Word :: !Skips(f.insns, limited, Target(f.insns, pc, kind))
    case _ => true
  }

  /** The two sides agree at an instruction, whatever the registers and the fuel. */
  ghost predicate AgreesAt(f: Code, limited: bool, pc: nat)
    requires Lowers(f.insns) && pc < |f.insns|
  {
    forall regs: Regs, fuel: nat ::
      SameOut(f, limited, BcStep(f, limited, Config(pc, regs, fuel)),
              IrBlock(f, Compiled(f), limited, Config(Start(f.insns, pc), regs, fuel)))
  }
}
