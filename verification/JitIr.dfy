/** Lowering of bytecode to the JIT's intermediate form (src/jit/jit_ir.c), and where its branches land
    (`ir_off_for_bc` in src/jit/backend/x64/jit_x64_emit.c). */
module JitIr {
  import opened Base

  type Reg = r: int | 0 <= r < 256

  datatype BinOp = Add | Sub | Mul
  datatype CmpOp = Eq | Lt

  /** The bytecode fragment. `Other` stands for the instructions that do not transfer control and are left
      to the interpreter; `Unsupported` for TRY and the spill instructions. */
  datatype Insn =
    | Nop
    | Mov(a: Reg, b: Reg)
    | ConstI32(a: Reg, imm: int)
    | ConstI8(a: Reg, c: Reg)
    | ConstBool(a: Reg, c: Reg)
    | Bin(bin: BinOp, a: Reg, b: Reg, c: Reg)
    | BinImm(bin: BinOp, a: Reg, b: Reg, c: Reg)
    | Cmp(cmp: CmpOp, a: Reg, b: Reg, c: Reg)
    | CmpImm(cmp: CmpOp, a: Reg, b: Reg, c: Reg)
    | NotBool(a: Reg, b: Reg)
    | Jmp(d: int)
    | JmpIf(a: Reg, d: int)
    | Switch(a: Reg, n: Reg, d: int)
    | Case(tag: Reg, d: int)
    | Ret(a: Reg)
    | Other(id: nat)
    | Unsupported

  datatype IrOp =
    | IrNop | IrMov | IrLoad | IrBin | IrCmp | IrJmp | IrJmpIf | IrRet | IrSlow | IrFuelCheck | IrSwitch | IrCase

  /** An instruction of the intermediate form: operands as in the source, with the place in the bytecode. */
  datatype Ir = Ir(op: IrOp, bcPc: nat, a: Reg, b: Reg, c: Reg, imm: int)

  function BinCode(bin: BinOp): int {
    match bin case Add => 0 case Sub => 1 case Mul => 2
  }

  function CmpCode(cmp: CmpOp): int {
    if cmp == Eq then 0 else 1
  }

  /** An operand byte as a signed number, in 32 bits. */
  function SignExtend8(c: Reg): Word {
    if c < 128 then c else c + (U32 - 256)
  }

  /** A backward JMP, the one jump that costs fuel. */
  predicate BackJmp(insns: seq<Insn>, pc: int) {
    0 <= pc < |insns| && insns[pc].Jmp? && insns[pc].d < 0
  }

  /** The table of a SWITCH_KIND lies in the code and holds nothing but its entries. */
  predicate TableOk(insns: seq<Insn>, pc: nat)
    requires pc < |insns| && insns[pc].Switch?
  {
    && pc + 1 + insns[pc].n <= |insns|
    && forall i :: pc < i <= pc + insns[pc].n ==> insns[i].Case?
  }

  // ---- one instruction -----------------------------------------------------------------------------------

  function EntryOf(ins: Insn, pc: nat): Ir
    requires ins.Case?
  {
    Ir(IrCase, pc, ins.tag, 0, 0, ins.d)
  }

  /** The entries of a switch, which carry the place of the switch. */
  function Cases(insns: seq<Insn>, pc: nat, k: nat): (cs: seq<Ir>)
    requires pc + k < |insns| && forall i :: pc < i <= pc + k ==> insns[i].Case?
    ensures |cs| == k
    ensures forall i :: 0 <= i < k ==> cs[i] == EntryOf(insns[pc + 1 + i], pc)
  {
    if k == 0 then []
    else Cases(insns, pc, k - 1) + [EntryOf(insns[pc + k], pc)]
  }

  /** What `lower_one` appends for the instruction at `pc`. */
  function Lowered(insns: seq<Insn>, pc: nat): seq<Ir>
    requires pc < |insns| && (insns[pc].Switch? ==> TableOk(insns, pc))
  {
    match insns[pc]
    case Nop => [Ir(IrNop, pc, 0, 0, 0, 0)]
    case Mov(a, b) => [Ir(IrMov, pc, a, b, 0, 0)]
    case ConstI32(a, imm) => [Ir(IrLoad, pc, a, 0, 0, imm)]
    case ConstI8(a, c) => [Ir(IrLoad, pc, a, 0, 0, SignExtend8(c))]
    case ConstBool(a, c) => [Ir(IrLoad, pc, a, 0, 0, c % 2)]
    case Bin(bin, a, b, c) => [Ir(IrBin, pc, a, b, c, BinCode(bin))]
    case BinImm(bin, a, b, c) => [Ir(IrBin, pc, a, b, c, BinCode(bin))]
    case Cmp(cmp, a, b, c) => [Ir(IrCmp, pc, a, b, c, CmpCode(cmp))]
    case CmpImm(cmp, a, b, c) => [Ir(IrCmp, pc, a, b, c, CmpCode(cmp))]
    case NotBool(a, b) => [Ir(IrCmp, pc, a, b, 255, CmpCode(Eq))]
    case Jmp(d) =>
      (if d < 0 then [Ir(IrFuelCheck, pc, 0, 0, 0, 0)] else []) + [Ir(IrJmp, pc, 0, 0, 0, pc + 1 + d)]
    case JmpIf(a, d) => [Ir(IrJmpIf, pc, a, 0, 0, pc + 1 + d)]
    case Switch(a, n, d) => [Ir(IrSwitch, pc, a, n, 0, d)] + Cases(insns, pc, n)
    case Case(tag, d) => []
    case Ret(a) => [Ir(IrRet, pc, a, 0, 0, 0)]
    case Other(id) => [Ir(IrSlow, pc, 0, 0, 0, pc)]
    case Unsupported => [Ir(IrSlow, pc, 0, 0, 0, pc)]
  }

  ghost predicate Lowers(insns: seq<Insn>) {
    && (forall pc :: 0 <= pc < |insns| ==> !insns[pc].Unsupported?)
    && (forall pc :: 0 <= pc < |insns| && insns[pc].Switch? ==> TableOk(insns, pc))
  }

  /** The code of the first `n` instructions. */
  ghost function LoweredUpTo(insns: seq<Insn>, n: nat): seq<Ir>
    requires Lowers(insns) && n <= |insns|
  {
    if n == 0 then [] else LoweredUpTo(insns, n - 1) + Lowered(insns, n - 1)
  }

  /** Where the code of an instruction starts. */
  ghost function Start(insns: seq<Insn>, pc: nat): nat
    requires Lowers(insns) && pc <= |insns|
  {
    |LoweredUpTo(insns, pc)|
  }

  // ---- the lowering loop -----------------------------------------------------------------------------------

  /** The case of `lower_one` for a switch: its entries must be there and be entries. */
  method LowerSwitch(insns: seq<Insn>, pc: nat, ir: seq<Ir>) returns (ok: bool, out: seq<Ir>)
    requires pc < |insns| && insns[pc].Switch?
    ensures ok <==> TableOk(insns, pc)
    ensures ok ==> out == ir + ([Ir(IrSwitch, pc, insns[pc].a, insns[pc].n, 0, insns[pc].d)]
                                + Cases(insns, pc, insns[pc].n))
  {
    var n := insns[pc].n;
    if pc + 1 + n > |insns| { return false, ir; }
    var head := [Ir(IrSwitch, pc, insns[pc].a, n, 0, insns[pc].d)];
    out := ir + head;
    assert out == ir + (head + Cases(insns, pc, 0));
    for ci := 0 to n
      invariant forall i :: pc < i <= pc + ci ==> insns[i].Case?
      invariant out == ir + (head + Cases(insns, pc, ci))
    {
      if !insns[pc + 1 + ci].Case? { return false, out; }
      out := out + [EntryOf(insns[pc + 1 + ci], pc)];
    }
    return true, out;
  }

  /** `lower_one`: appends to the code, or fails on a malformed switch. */
  method LowerOne(insns: seq<Insn>, pc: nat, ir: seq<Ir>) returns (ok: bool, out: seq<Ir>)
    requires pc < |insns|
    ensures ok <==> (insns[pc].Switch? ==> TableOk(insns, pc))
    ensures ok ==> out == ir + Lowered(insns, pc)
  {
    var code: Ir;
    out := ir;
    match insns[pc] {
      case Nop => code := Ir(IrNop, pc, 0, 0, 0, 0);
      case Mov(a, b) => code := Ir(IrMov, pc, a, b, 0, 0);
      case ConstI32(a, imm) => code := Ir(IrLoad, pc, a, 0, 0, imm);
      case ConstI8(a, c) => code := Ir(IrLoad, pc, a, 0, 0, SignExtend8(c));
      case ConstBool(a, c) => code := Ir(IrLoad, pc, a, 0, 0, c % 2);
      case Bin(bin, a, b, c) => code := Ir(IrBin, pc, a, b, c, BinCode(bin));
      case BinImm(bin, a, b, c) => code := Ir(IrBin, pc, a, b, c, BinCode(bin));
      case Cmp(cmp, a, b, c) => code := Ir(IrCmp, pc, a, b, c, CmpCode(cmp));
      case CmpImm(cmp, a, b, c) => code := Ir(IrCmp, pc, a, b, c, CmpCode(cmp));
      case NotBool(a, b) => code := Ir(IrCmp, pc, a, b, 255, CmpCode(Eq));
      case JmpIf(a, d) => code := Ir(IrJmpIf, pc, a, 0, 0, pc + 1 + d);
      case Ret(a) => code := Ir(IrRet, pc, a, 0, 0, 0);
      case Other(id) => code := Ir(IrSlow, pc, 0, 0, 0, pc);
      case Unsupported => code := Ir(IrSlow, pc, 0, 0, 0, pc);
      case Jmp(d) =>
        var target := pc + 1 + d;
        if target <= pc {
          out := out + [Ir(IrFuelCheck, pc, 0, 0, 0, 0)];
        }
        code := Ir(IrJmp, pc, 0, 0, 0, target);
      case Switch(a, n, d) =>
        ok, out := LowerSwitch(insns, pc, ir);
        return;
      case Case(tag, d) =>
        return true, out;
    }
    return true, out + [code];
  }

  /** `jello_jit_ir_build`: rejects what the JIT does not support, and otherwise lowers everything in order. */
  method Build(insns: seq<Insn>) returns (ok: bool, ir: seq<Ir>)
    ensures ok <==> Lowers(insns)
    ensures ok ==> ir == LoweredUpTo(insns, |insns|)
  {
    hide Lowered, TableOk;
    ir := [];
    for pc := 0 to |insns|
      invariant forall i :: 0 <= i < pc ==> !insns[i].Unsupported?
    {
      if insns[pc].Unsupported? { return false, ir; }
    }
    for pc := 0 to |insns|
      invariant forall i :: 0 <= i < pc && insns[i].Switch? ==> TableOk(insns, i)
      invariant Lowers(insns) ==> ir == LoweredUpTo(insns, pc)
    {
      ok, ir := LowerOne(insns, pc, ir);
      if !ok { return false, ir; }
    }
    return true, ir;
  }

  // ---- where things are --------------------------------------------------------------------------------

  lemma {:induction false} StartMono(insns: seq<Insn>, i: nat, j: nat)
    requires Lowers(insns) && i <= j <= |insns|
    ensures LoweredUpTo(insns, i) <= LoweredUpTo(insns, j)
    decreases j
  {
    hide Lowered, TableOk;
    if i < j {
      StartMono(insns, i, j - 1);
      assert LoweredUpTo(insns, j) == LoweredUpTo(insns, j - 1) + Lowered(insns, j - 1);
    }
  }

  /** The code of an instruction is found at its start. */
  lemma CodeAt(insns: seq<Insn>, pc: nat)
    requires Lowers(insns) && pc < |insns|
    ensures var ir, s, e := LoweredUpTo(insns, |insns|), Start(insns, pc), Start(insns, pc + 1);
            s <= e <= |ir| && ir[s..e] == Lowered(insns, pc) && e == s + |Lowered(insns, pc)|
  {
    StartMono(insns, pc + 1, |insns|);
    var ir := LoweredUpTo(insns, |insns|);
    assert ir[..Start(insns, pc + 1)] == LoweredUpTo(insns, pc + 1);
  }

  /** The shape of one instruction's code: all of it names the instruction, and a fuel check comes first
      exactly in front of a backward JMP. */
  lemma Shape(insns: seq<Insn>, pc: nat)
    requires pc < |insns| && (insns[pc].Switch? ==> TableOk(insns, pc))
    ensures var own := Lowered(insns, pc);
      && (forall i :: 0 <= i < |own| ==> own[i].bcPc == pc)
      && (own == [] <==> insns[pc].Case?)
      && (own != [] ==> (own[0].op.IrFuelCheck? <==> BackJmp(insns, pc)))
      && (BackJmp(insns, pc) ==> |own| == 2 && !own[1].op.IrFuelCheck?)
  {
  }

  /** Every piece of code belongs to the instruction it names. */
  lemma {:induction false} OwnedBy(insns: seq<Insn>, n: nat, k: nat)
    requires Lowers(insns) && n <= |insns| && k < |LoweredUpTo(insns, n)|
    ensures var pc := LoweredUpTo(insns, n)[k].bcPc;
            pc < n && Start(insns, pc) <= k < Start(insns, pc + 1)
    decreases n
  {
    hide Lowered, TableOk;
    if k < Start(insns, n - 1) {
      OwnedBy(insns, n - 1, k);
    } else {
      Shape(insns, n - 1);
      var own := Lowered(insns, n - 1);
      assert LoweredUpTo(insns, n)[k] == own[k - Start(insns, n - 1)];
    }
  }

  // ---- branch targets ------------------------------------------------------------------------------------

  /** `ir_off_for_bc`: the first code of an instruction that is not a fuel check, or else its first code. */
  method Resolve(ir: seq<Ir>, tgt: nat) returns (found: bool, at: nat)
    ensures found <==> exists i :: 0 <= i < |ir| && ir[i].bcPc == tgt
    ensures found ==> at < |ir| && ir[at].bcPc == tgt
    ensures found && !ir[at].op.IrFuelCheck? ==>
              forall i :: 0 <= i < at && ir[i].bcPc == tgt ==> ir[i].op.IrFuelCheck?
    ensures found && ir[at].op.IrFuelCheck? ==>
              forall i :: 0 <= i < |ir| && ir[i].bcPc == tgt ==> ir[i].op.IrFuelCheck?
  {
    for i := 0 to |ir|
      invariant forall j :: 0 <= j < i && ir[j].bcPc == tgt ==> ir[j].op.IrFuelCheck?
    {
      if ir[i].bcPc == tgt {
        if ir[i].op.IrFuelCheck? { continue; }
        return true, i;
      }
    }
    for i := 0 to |ir|
      invariant forall j :: 0 <= j < i ==> ir[j].bcPc != tgt
    {
      if ir[i].bcPc == tgt { return true, i; }
    }
    return false, 0;
  }

  /** Where a branch to `tgt` lands in lowered code: past the fuel check of a backward JMP. */
  ghost function Landing(insns: seq<Insn>, tgt: nat): nat
    requires Lowers(insns) && tgt < |insns|
  {
    Start(insns, tgt) + if BackJmp(insns, tgt) then 1 else 0
  }

  lemma LandingFacts(insns: seq<Insn>, tgt: nat)
    requires Lowers(insns) && tgt < |insns|
    ensures var ir := LoweredUpTo(insns, |insns|);
      && Start(insns, tgt) <= Start(insns, tgt + 1) <= |ir|
      && (insns[tgt].Case? <==> Start(insns, tgt) == Start(insns, tgt + 1))
      && (!insns[tgt].Case? ==>
            var at := Landing(insns, tgt);
            && at == Start(insns, tgt) + (if BackJmp(insns, tgt) then 1 else 0)
            && at < Start(insns, tgt + 1) && ir[at].bcPc == tgt && !ir[at].op.IrFuelCheck?
            && (BackJmp(insns, tgt) ==> ir[at - 1].op.IrFuelCheck?))
  {
    hide Lowered, TableOk, LoweredUpTo;
    CodeAt(insns, tgt);
    Shape(insns, tgt);
    var ir, own, s := LoweredUpTo(insns, |insns|), Lowered(insns, tgt), Start(insns, tgt);
    assert own != [] ==> ir[s] == own[0];
    assert |own| >= 2 ==> ir[s + 1] == own[1];
  }

  /** The search finds the landing place, for every target but an entry of a switch table. */
  lemma ResolveIsLanding(insns: seq<Insn>, tgt: nat, found: bool, at: nat)
    requires Lowers(insns)
    requires var ir := LoweredUpTo(insns, |insns|);
      && (found <==> exists i :: 0 <= i < |ir| && ir[i].bcPc == tgt)
      && (found ==> at < |ir| && ir[at].bcPc == tgt)
      && (found && !ir[at].op.IrFuelCheck? ==>
            forall i :: 0 <= i < at && ir[i].bcPc == tgt ==> ir[i].op.IrFuelCheck?)
      && (found && ir[at].op.IrFuelCheck? ==>
            forall i :: 0 <= i < |ir| && ir[i].bcPc == tgt ==> ir[i].op.IrFuelCheck?)
    ensures found <==> tgt < |insns| && !insns[tgt].Case?
    ensures found ==> at == Landing(insns, tgt)
  {
    hide *;
    var ir := LoweredUpTo(insns, |insns|);
    if found {
      OwnedBy(insns, |insns|, at);
      LandingFacts(insns, tgt);
      var l := Landing(insns, tgt);
      assert ir[l].bcPc == tgt && !ir[l].op.IrFuelCheck?;
      assert at <= l;
    } else if tgt < |insns| {
      LandingFacts(insns, tgt);
    }
  }
}
