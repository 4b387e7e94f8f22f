/** Whole runs: how budgets compose, and a small program run to completion under any
    enumeration that lists the instructions it uses. */
module VmRuns {
  import opened Base
  import opened Int64
  import opened Codec
  import opened Isa
  import opened Effects
  import opened Vm
  import VmProps

  /** A run that stops at its first step stops there whatever the budget. */
  lemma RunStops(d: Dialect, isa: Numbering, host: Host, s: State, fuel: nat)
    requires Valid(s) && Step(d, isa, host, s).Stop? && fuel > 0
    ensures Run(d, isa, host, s, fuel) == Step(d, isa, host, s)
  {}

  /** Otherwise the run goes on from the state the first step reached. */
  lemma RunContinues(d: Dialect, isa: Numbering, host: Host, s: State, fuel: nat)
    requires Valid(s) && Step(d, isa, host, s).Continue? && fuel > 0
    ensures Run(d, isa, host, s, fuel) == Run(d, isa, host, Step(d, isa, host, s).next, fuel - 1)
  {}

  /** The enumeration can encode instruction `k` in an opcode byte. */
  predicate Encodable(isa: Numbering, k: Kind)
  {
    k in isa && |isa| < 256
  }

  /** The word the assembler emits for `k` with operand `v`. */
  function Instr(isa: Numbering, k: Kind, v: int): (w: i64)
    requires Encodable(isa, k) && Fits56(v)
    ensures KindOf(isa, Opcode(w)) == Some(k) && Operand(w) == v
  {
    DecodeEncode(CodeOf(isa, k), v);
    Encode(CodeOf(isa, k), v)
  }

  /** The operand of a Sys instruction: argument above, syscall id in the low byte. */
  function SysOperand(id: Byte, arg: int): int
  {
    arg * 256 + id
  }

  lemma SysOperandFields(id: Byte, arg: int)
    ensures LowByte(SysOperand(id, arg)) == id && High(SysOperand(id, arg)) == arg
    ensures Fits48(arg) ==> Fits56(SysOperand(id, arg))
  {}

  /** `loadi a; addi b; sys exit e`. */
  function ExitProgram(isa: Numbering, a: int, b: int, e: int): (p: seq<i64>)
    requires Encodable(isa, LoadI) && Encodable(isa, AddI) && Encodable(isa, Sys)
    requires Fits56(a) && Fits56(b) && Fits48(e)
    ensures |p| == 3
  {
    SysOperandFields(1, e);
    [Instr(isa, LoadI, a), Instr(isa, AddI, b), Instr(isa, Sys, SysOperand(1, e))]
  }

  /** A word the assembler emitted decodes as what it was emitted for. */
  lemma InstrAt(isa: Numbering, s: State, k: Kind, v: int)
    requires Encodable(isa, k) && Fits56(v)
    requires Fetchable(s) && s.program[s.pc] == Instr(isa, k, v)
    ensures VmProps.At(isa, s, k, v)
  {}

  /** `loadi a; addi b` leaves `a + b`, wrapped to 64 bits, in the accumulator after two steps. */
  lemma LoadAddRun(d: Dialect, isa: Numbering, host: Host, s0: State, a: int, b: int, fuel: nat)
    requires Valid(s0) && s0.pc == 0 && fuel >= 2 && Fits56(a)
    requires VmProps.At(isa, s0, LoadI, a)
    requires VmProps.At(isa, s0.(pc := 1, acc := a), AddI, b)
    ensures Run(d, isa, host, s0, fuel) == Run(d, isa, host, s0.(pc := 2, acc := Wrap(a + b)), fuel - 2)
  {
    var s1 := s0.(pc := 1, acc := a);
    VmProps.LoadImmediate(d, isa, host, s0, a);
    assert Step(d, isa, host, s0) == Continue(s1);
    RunContinues(d, isa, host, s0, fuel);
    VmProps.AddImmediate(d, isa, host, s1, b);
    assert Step(d, isa, host, s1) == Continue(s0.(pc := 2, acc := Wrap(a + b)));
    RunContinues(d, isa, host, s1, fuel - 1);
  }

  /** Any program whose first three words read `loadi a`, `addi b`, `sys exit e` exits with `e`
      at the third step, the accumulator holding `a + b` wrapped to 64 bits, whatever the budget
      beyond that. */
  lemma ExitRun(d: Dialect, isa: Numbering, host: Host, s0: State, a: int, b: int, e: int, fuel: nat)
    requires Valid(s0) && s0.pc == 0 && fuel >= 3 && Fits56(a) && Fits56(b)
    requires VmProps.At(isa, s0, LoadI, a)
    requires VmProps.At(isa, s0.(pc := 1, acc := a), AddI, b)
    requires VmProps.At(isa, s0.(pc := 2, acc := Wrap(a + b)), Sys, SysOperand(1, e))
    ensures Run(d, isa, host, s0, fuel) == Stop(Exited(e), s0.(pc := 2, acc := Wrap(a + b)))
  {
    var s2 := s0.(pc := 2, acc := Wrap(a + b));
    LoadAddRun(d, isa, host, s0, a, b, fuel);
    SysOperandFields(1, e);
    VmProps.ExitOutcome(d, isa, host, s2, Sys, SysOperand(1, e));
    RunStops(d, isa, host, s2, fuel - 2);
  }

  /** Both interpreters run it to `exit(e)` in three steps, with `a + b` in the accumulator; a
      larger budget changes nothing. */
  lemma ExitProgramExits(d: Dialect, isa: Numbering, host: Host, a: int, b: int, e: int,
                         garbage: seq<i64>, fuel: nat)
    requires Encodable(isa, LoadI) && Encodable(isa, AddI) && Encodable(isa, Sys)
    requires Fits56(a) && Fits56(b) && Fits48(e)
    requires |garbage| == STACK_SIZE && fuel >= 3
    ensures var r := Run(d, isa, host, Boot(d, ExitProgram(isa, a, b, e), garbage), fuel);
            r.Stop? && r.outcome == Exited(e) && r.last.acc == Wrap(a + b) && r.last.pc == 2
  {
    var s0 := Boot(d, ExitProgram(isa, a, b, e), garbage);
    SysOperandFields(1, e);
    InstrAt(isa, s0, LoadI, a);
    InstrAt(isa, s0.(pc := 1, acc := a), AddI, b);
    InstrAt(isa, s0.(pc := 2, acc := Wrap(a + b)), Sys, SysOperand(1, e));
    ExitRun(d, isa, host, s0, a, b, e, fuel);
  }
}
