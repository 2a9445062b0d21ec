/** What the instructions of the fragment compute, in numbers: nothing here is stated through the functions that the
    meaning of bytecode and that of the lowered form share (src/vm/ops/exec_loop.c, src/jit/jit_ir.c). */
module JitMeaning {
  import opened Arith
  import opened Base
  import opened JitIr
  import opened JitSim
  import opened JitProof

  /** The two numbers differ by a multiple of `m`. */
  predicate Congruent(x: int, y: int, m: nat)
    requires m > 0
  {
    (x - y) % m == 0
  }

  lemma Multiple(x: int, y: int, k: int, m: nat)
    requires m > 0 && x == y + k * m
    ensures Congruent(x, y, m)
  {
    DivModUnique(x - y, k, 0, m);
  }

  /** A word as a signed number: the one in range that is congruent to it. */
  lemma SignedIs(x: Word)
    ensures -0x8000_0000 <= Signed(x) < 0x8000_0000 && Congruent(Signed(x), x, 0x1_0000_0000)
  {
    Multiple(Signed(x), x, if x < 0x8000_0000 then 0 else -1, U32);
  }

  /** An operand byte stands for a number from -128 to 127. */
  lemma OperandIs(c: Reg)
    ensures Signed(SignExtend8(c)) == if c < 128 then c else c - 256
  {
  }

  function Exact(bin: BinOp, x: int, y: int): int {
    match bin
    case Add => x + y
    case Sub => x - y
    case Mul => x * y
  }

  /** How many times 2^32 is in a signed number. */
  function Wraps(x: Word): int {
    if x < 0x8000_0000 then 0 else 1
  }

  lemma Product(x: Word, y: Word)
    ensures Signed(x) * Signed(y) == x * y - (Wraps(x) * y + Wraps(y) * x - Wraps(x) * Wraps(y) * U32) * U32
  {
  }

  /** The result of an operation, as a signed number, is in range and congruent to that on the signed operands. */
  lemma ApplyIs(bin: BinOp, x: Word, y: Word)
    ensures Congruent(Signed(Apply(bin, x, y)), Exact(bin, Signed(x), Signed(y)), 0x1_0000_0000)
  {
    hide Congruent;
    Product(x, y);
    var r, raw := Apply(bin, x, y), Exact(bin, x, y);
    assert raw == (raw / U32) * U32 + r;
    assert Signed(x) == x - Wraps(x) * U32 && Signed(y) == y - Wraps(y) * U32 && Signed(r) == r - Wraps(r) * U32;
    hide Signed, Apply, Wraps;
    var k := match bin
      case Add => Wraps(x) + Wraps(y)
      case Sub => Wraps(x) - Wraps(y)
      case Mul => Wraps(x) * y + Wraps(y) * x - Wraps(x) * Wraps(y) * U32;
    assert Exact(bin, Signed(x), Signed(y)) == raw - k * U32;
    Multiple(Signed(r), Exact(bin, Signed(x), Signed(y)), k - raw / U32 - Wraps(r), U32);
  }

  /** Storing into a narrow register keeps the number, as far as it fits. */
  lemma MaskedIs(v: Word, k: Kind)
    ensures k == I8 ==> -128 <= Signed(Masked(v, k)) < 128 && Congruent(Signed(Masked(v, k)), v, 0x100)
    ensures k == I16 ==> -0x8000 <= Signed(Masked(v, k)) < 0x8000 && Congruent(Signed(Masked(v, k)), v, 0x1_0000)
    ensures k == Full ==> Masked(v, k) == v
  {
    var m := Signed(Masked(v, k));
    assert k == I8 ==> m == v - (v / 0x100) * 0x100 - if v % 0x100 < 0x80 then 0 else 0x100;
    assert k == I16 ==> m == v - (v / 0x1_0000) * 0x1_0000 - if v % 0x1_0000 < 0x8000 then 0 else 0x1_0000;
    hide Congruent;
    if k == I8 {
      Multiple(m, v, -(v / 0x100) - (if v % 0x100 < 0x80 then 0 else 1), 0x100);
    } else if k == I16 {
      Multiple(m, v, -(v / 0x1_0000) - (if v % 0x1_0000 < 0x8000 then 0 else 1), 0x1_0000);
    }
  }

  // ---- instructions ------------------------------------------------------------------------------------------

  /** The number an operand byte stands for. */
  function Operand(c: Reg): int {
    if c < 128 then c else c - 256
  }

  /** What the instruction leaves in its register, in numbers. */
  ghost predicate ResultIs(ins: Insn, r: Regs, k: Kind, v: Word) {
    match ins
    case Mov(a, b) => v == r[b]
    case ConstI32(a, imm) => Congruent(v, imm, 0x1_0000_0000)
    case ConstI8(a, c) => Signed(v) == Operand(c)
    case ConstBool(a, c) => v in {0, 1} && Congruent(v, c, 2)
    case Bin(bin, a, x, y) => Fits(Signed(v), Exact(bin, Signed(r[x]), Signed(r[y])), k)
    case BinImm(bin, a, x, y) => Fits(Signed(v), Exact(bin, Signed(r[x]), Operand(y)), k)
    case Cmp(cmp, a, x, y) =>
      v == if (if cmp == Eq then r[x] == r[y] else Signed(r[x]) < Signed(r[y])) then 1 else 0
    case CmpImm(cmp, a, x, y) =>
      v == if (if cmp == Eq then Signed(r[x]) == Operand(y) else Signed(r[x]) < Operand(y)) then 1 else 0
    case NotBool(a, b) => v == if r[b] == 0 then 1 else 0
    case _ => false
  }

  /** `v` is in the range of the kind, and congruent to `x` modulo its size. */
  predicate Fits(v: int, x: int, k: Kind) {
    match k
    case I8 => -128 <= v < 128 && Congruent(v, x, 0x100)
    case I16 => -0x8000 <= v < 0x8000 && Congruent(v, x, 0x1_0000)
    case Full => -0x8000_0000 <= v < 0x8000_0000 && Congruent(v, x, 0x1_0000_0000)
  }

  lemma {:induction false} Coarser(x: int, y: int, q: nat, m: nat)
    requires q > 0 && m > 0 && q * m == 0x1_0000_0000 && Congruent(x, y, 0x1_0000_0000)
    ensures Congruent(x, y, m)
  {
    var k := (x - y) / 0x1_0000_0000;
    MulAssoc(k, q, m);
    Multiple(x, y, k * q, m);
  }

  lemma Through(x: int, y: int, z: int, m: nat)
    requires m > 0 && Congruent(x, y, m) && Congruent(y, z, m)
    ensures Congruent(x, z, m)
  {
    var j, k := (x - y) / m, (y - z) / m;
    Distribute(j, -k, m);
    Multiple(x, z, j + k, m);
  }

  lemma StoredIs(bin: BinOp, x: Word, y: Word, k: Kind)
    ensures Fits(Signed(Masked(Apply(bin, x, y), k)), Exact(bin, Signed(x), Signed(y)), k)
  {
    var v := Apply(bin, x, y);
    var exact := Exact(bin, Signed(x), Signed(y));
    MaskedIs(v, k);
    SignedIs(v);
    ApplyIs(bin, x, y);
    hide Signed, Apply, Masked, Congruent, Exact;
    match k
    case Full =>
      SignedIs(Masked(v, k));
    case I8 =>
      NarrowStored(Signed(Masked(v, k)), v, Signed(v), exact, 0x100_0000, 0x100);
    case I16 =>
      NarrowStored(Signed(Masked(v, k)), v, Signed(v), exact, 0x1_0000, 0x1_0000);
  }

  lemma NarrowStored(s: int, v: int, sv: int, exact: int, q: nat, m: nat)
    requires q > 0 && m > 0 && q * m == 0x1_0000_0000
    requires Congruent(s, v, m) && Congruent(sv, v, 0x1_0000_0000) && Congruent(sv, exact, 0x1_0000_0000)
    ensures Congruent(s, exact, m)
  {
    Coarser(sv, v, q, m);
    Coarser(sv, exact, q, m);
    Symmetric(sv, v, m);
    Through(s, v, sv, m);
    Through(s, sv, exact, m);
  }

  lemma Symmetric(x: int, y: int, m: nat)
    requires m > 0 && Congruent(x, y, m)
    ensures Congruent(y, x, m)
  {
    var k := (x - y) / m;
    Distribute(0, k, m);
    Multiple(y, x, -k, m);
  }

  /** The result of an instruction that only writes its register, as the interpreter has it. */
  function Value(ins: Insn, r: Regs, k: Kind): Word {
    match ins
    case Mov(a, b) => r[b]
    case ConstI32(a, imm) => imm % U32
    case ConstI8(a, c) => SignExtend8(c)
    case ConstBool(a, c) => c % 2
    case Bin(bin, a, x, y) => Masked(Apply(bin, r[x], r[y]), k)
    case BinImm(bin, a, x, y) => Masked(Apply(bin, r[x], SignExtend8(y)), k)
    case Cmp(cmp, a, x, y) => Compare(cmp, r[x], r[y])
    case CmpImm(cmp, a, x, y) => Compare(cmp, r[x], SignExtend8(y))
    case NotBool(a, b) => if r[b] == 0 then 1 else 0
    case _ => 0
  }

  predicate Writes(ins: Insn) {
    ins.Mov? || ins.ConstI32? || ins.ConstI8? || ins.ConstBool? || ins.Bin? || ins.BinImm? || ins.Cmp? || ins.CmpImm?
    || ins.NotBool?
  }

  lemma ValueIs(ins: Insn, r: Regs, k: Kind)
    requires Writes(ins)
    ensures ResultIs(ins, r, k, Value(ins, r, k))
  {
    hide Masked, Apply, Signed, Congruent, Exact, SignExtend8, Fits;
    match ins
    case Mov(a, b) =>
    case ConstI32(a, imm) => Multiple(imm % U32, imm, -(imm / U32), U32);
    case ConstI8(a, c) => OperandIs(c);
    case ConstBool(a, c) => Multiple(c % 2, c, -(c / 2), 2);
    case Bin(bin, a, x, y) => StoredIs(bin, r[x], r[y], k);
    case BinImm(bin, a, x, y) =>
      OperandIs(y);
      StoredIs(bin, r[x], SignExtend8(y), k);
    case Cmp(cmp, a, x, y) =>
    case CmpImm(cmp, a, x, y) =>
      OperandIs(y);
      SignedInjective(r[x], SignExtend8(y));
    case NotBool(a, b) =>
  }

  lemma SignedInjective(x: Word, y: Word)
    ensures x == y <==> Signed(x) == Signed(y)
  {
  }

  /** The interpreter goes on to the next instruction, with the result in the register of the instruction, all other
      registers and the fuel as they were. */
  lemma InterpreterMeans(f: Code, limited: bool, pc: nat, regs: Regs, fuel: nat)
    requires Lowers(f.insns) && pc < |f.insns| && Writes(f.insns[pc])
    ensures var out := BcStep(f, limited, Config(pc, regs, fuel));
      var a := f.insns[pc].a;
      && out.Go? && out.next.at == pc + 1 && out.next.fuel == fuel
      && ResultIs(f.insns[pc], regs, f.kinds(a), out.next.regs[a])
      && forall b: Reg :: b != a ==> out.next.regs[b] == regs[b]
  {
    hide Lowers, Masked, Apply, Compare, SignExtend8, ResultIs;
    ValueIs(f.insns[pc], regs, f.kinds(f.insns[pc].a));
  }

  /** So does compiled code, where the instruction is faithful. */
  lemma CompiledMeans(f: Code, limited: bool, pc: nat, regs: Regs, fuel: nat)
    requires Lowers(f.insns) && pc < |f.insns| && Writes(f.insns[pc]) && Faithful(f, limited, pc)
    ensures var out := IrBlock(f, Compiled(f), limited, Config(Start(f.insns, pc), regs, fuel));
      var a := f.insns[pc].a;
      && out.Go? && out.next.fuel == fuel
      && ResultIs(f.insns[pc], regs, f.kinds(a), out.next.regs[a])
      && forall b: Reg :: b != a ==> out.next.regs[b] == regs[b]
  {
    InterpreterMeans(f, limited, pc, regs, fuel);
    StraightAgrees(f, limited, pc, regs, fuel);
    hide BcStep, IrBlock, ResultIs, Lowers, LoweredUpTo, Places;
  }

  /** A small constant is lowered to a load of the number its operand byte stands for. */
  lemma LoweredConstant(insns: seq<Insn>, pc: nat)
    requires pc < |insns| && insns[pc].ConstI8?
    ensures var own, c := Lowered(insns, pc), insns[pc].c;
      && |own| == 1 && own[0].op == IrLoad && own[0].a == insns[pc].a && 0 <= own[0].imm < 0x1_0000_0000
      && Signed(own[0].imm) == if c < 128 then c else c - 256
  {
    OperandIs(insns[pc].c);
  }

  // ---- control ---------------------------------------------------------------------------------------------

  /** A jump goes by its distance from the next instruction; going back takes a unit of fuel under a limit, and
      without fuel it is not done. A conditional one is never charged. */
  lemma JumpsMean(f: Code, limited: bool, pc: nat, regs: Regs, fuel: nat)
    requires Lowers(f.insns) && pc < |f.insns|
    ensures var out, ins := BcStep(f, limited, Config(pc, regs, fuel)), f.insns[pc];
      && (ins.Jmp? && 0 <= pc + 1 + ins.d <= |f.insns| ==>
            if ins.d < 0 && limited then
              if fuel == 0 then out == OutOfFuel else out == Go(Config(pc + 1 + ins.d, regs, fuel - 1))
            else out == Go(Config(pc + 1 + ins.d, regs, fuel)))
      && (ins.JmpIf? && 0 <= pc + 1 + ins.d <= |f.insns| ==>
            out == Go(Config(if regs[ins.a] != 0 then pc + 1 + ins.d else pc + 1, regs, fuel)))
      && (ins.Ret? ==> out == Returned(regs[ins.a]))
  {
    hide Lowers;
  }

  /** A switch goes by the first entry with the kind, and by its default only if no entry has it. */
  lemma {:induction false} DeltaMeans(insns: seq<Insn>, pc: nat, kind: Word, i: nat, j: nat)
    requires pc < |insns| && insns[pc].Switch? && TableOk(insns, pc) && i <= j <= insns[pc].n
    requires forall k :: pc + 1 + i <= k < pc + 1 + j ==> insns[k].tag != kind
    ensures j == insns[pc].n ==> Delta(insns, pc, kind, i) == insns[pc].d
    ensures j < insns[pc].n && insns[pc + 1 + j].tag == kind ==> Delta(insns, pc, kind, i) == insns[pc + 1 + j].d
    decreases j - i
  {
    if i < j {
      DeltaMeans(insns, pc, kind, i + 1, j);
    }
  }

  lemma SwitchMeans(f: Code, limited: bool, pc: nat, regs: Regs, fuel: nat, j: nat)
    requires Lowers(f.insns) && Emits(f.insns) && pc < |f.insns| && f.insns[pc].Switch? && j <= f.insns[pc].n
    requires forall k :: pc + 1 <= k < pc + 1 + j ==> f.insns[k].Case? && f.insns[k].tag != regs[f.insns[pc].a]
    requires j < f.insns[pc].n ==> f.insns[pc + 1 + j].Case? && f.insns[pc + 1 + j].tag == regs[f.insns[pc].a]
    ensures var n := f.insns[pc].n;
      BcStep(f, limited, Config(pc, regs, fuel))
      == Go(Config(pc + 1 + n + (if j < n then f.insns[pc + 1 + j].d else f.insns[pc].d), regs, fuel))
  {
    DeltaMeans(f.insns, pc, regs[f.insns[pc].a], 0, j);
    SwitchBlock(f, limited, pc, regs, fuel);
    hide BcStep, IrBlock, Emits, Landing;
  }
}
