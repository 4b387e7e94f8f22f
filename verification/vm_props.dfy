/** What one step of the machine does, instruction by instruction, and where the two interpreters
    part ways. */
module VmProps {
  import opened Base
  import opened Int64
  import opened Bytes
  import opened Codec
  import opened Isa
  import opened Effects
  import opened Vm
  import Str8
  import Syscalls

  /** The instruction at pc is `k` with operand `v`. */
  predicate At(isa: Numbering, s: State, k: Kind, v: int)
  {
    Fetchable(s) && KindOf(isa, Opcode(s.program[s.pc])) == Some(k) && Operand(s.program[s.pc]) == v
  }

  /** Word `p` of `program` is instruction `k` with operand `v`. */
  predicate WordIs(isa: Numbering, program: seq<i64>, p: int, k: Kind, v: int)
  {
    0 <= p < |program| && KindOf(isa, Opcode(program[p])) == Some(k) && Operand(program[p]) == v
  }

  lemma WordAt(isa: Numbering, s: State, k: Kind, v: int)
    requires Valid(s) && WordIs(isa, s.program, s.pc, k, v)
    ensures At(isa, s, k, v)
  {}

  /** Once decoded, a step executes the instruction it found. */
  lemma Dispatch(d: Dialect, isa: Numbering, host: Host, s: State, k: Kind, v: int)
    requires At(isa, s, k, v) && Supported(d, k)
    ensures Step(d, isa, host, s) == Execute(d, host, s, k, v)
  {}

  // The instructions' effects on their own, before decoding is involved.

  lemma ExecutesImmediate(d: Dialect, host: Host, s: State, k: Kind, v: int)
    requires Fetchable(s) && Fits56(v) && Supported(d, k) && IsImmediate(k)
    ensures Execute(d, host, s, k, v) == Immediate(d, s, k, v)
  {}

  lemma ExecutesJump(d: Dialect, host: Host, s: State, k: Kind, v: int)
    requires Fetchable(s) && Fits56(v) && Supported(d, k) && IsJump(k)
    ensures Execute(d, host, s, k, v) == Continue(Jump(s, k, v))
  {}

  lemma ExecutesProgramRelative(d: Dialect, host: Host, s: State, k: Kind, v: int)
    requires Fetchable(s) && Fits56(v) && Supported(d, k) && IsProgramRelative(k)
    ensures Execute(d, host, s, k, v) == ProgramRelative(d, s, k, v)
  {}

  lemma ExecutesFrame(d: Dialect, host: Host, s: State, k: Kind, v: int)
    requires Fetchable(s) && Fits56(v) && Supported(d, k) && IsFrame(k)
    ensures Execute(d, host, s, k, v) == Frame(d, s, k, v)
  {}

  /** A decoded Call, Ret, Push or Pop steps as `Frame`. */
  lemma StepsFrame(d: Dialect, isa: Numbering, host: Host, s: State, k: Kind, v: int)
    requires At(isa, s, k, v) && (k == Call || k == Ret || k == Push || k == Pop)
    ensures Step(d, isa, host, s) == Frame(d, s, k, v)
  {
    Dispatch(d, isa, host, s, k, v);
    ExecutesFrame(d, host, s, k, v);
  }

  lemma ExecutesStackRead(d: Dialect, host: Host, s: State, k: Kind, v: int)
    requires Fetchable(s) && Fits56(v) && Supported(d, k) && IsStackRead(k)
    ensures Execute(d, host, s, k, v) == StackRead(d, s, k, v)
  {}

  lemma ExecutesStoreByte(d: Dialect, host: Host, s: State, v: int)
    requires Fetchable(s) && Fits56(v)
    ensures Execute(d, host, s, StoreSB, v) == StoreByte(d, s, v)
  {}

  lemma ExecutesStackWrite(d: Dialect, host: Host, s: State, k: Kind, v: int)
    requires Fetchable(s) && Fits56(v) && (k == StoreS || k == IncrS || k == IdivS)
    ensures Execute(d, host, s, k, v) == StackWrite(d, s, k, v)
  {}

  lemma CallPushes(s: State, o: int)
    requires Fetchable(s) && Fits56(o) && InStack(s.sp + 1)
    ensures CallStep(s, o) == Continue(s.(stack := s.stack[s.sp + 1 := s.pc + 1], sp := s.sp + 1, pc := s.pc + o))
  {}

  lemma ReturnPops(d: Dialect, s: State, k: int)
    requires Fetchable(s) && 0 <= k < TWO31 && InStack(s.sp - k)
    ensures ReturnStep(d, s, k) == Continue(s.(pc := s.stack[s.sp - k], sp := s.sp - k - 1))
  {
    assert IntOf(d, k) == k;
  }

  lemma PushLayout(s: State, n: int)
    requires Fetchable(s) && 0 <= n && 0 <= s.sp + 1 && s.sp + n + 1 < STACK_SIZE
    ensures PushStep(s, n).Continue?
    ensures var t := PushStep(s, n).next;
            && t == s.(pc := s.pc + 1, stack := t.stack, sp := s.sp + n + 1)
            && |t.stack| == STACK_SIZE && t.stack[s.sp + n + 1] == s.acc
            && (forall i :: s.sp < i <= s.sp + n ==> t.stack[i] == 0)
            && (forall i :: 0 <= i <= s.sp || s.sp + n + 1 < i < STACK_SIZE ==> t.stack[i] == s.stack[i])
  {
    assert PushStep(s, n).next.stack == Splice(s.stack, s.sp + 1, Repeat(0, n) + [s.acc]);
  }

  lemma PopTop(d: Dialect, s: State, n: int)
    requires Fetchable(s) && 0 <= n < TWO31 && InStack(s.sp)
    ensures PopStep(d, s, n) == Continue(s.(pc := s.pc + 1, acc := s.stack[s.sp], sp := s.sp - 1 - n))
  {
    assert IntOf(d, n) == n;
  }

  /** What StoreSB leaves behind in `t`: byte `off % 8` of cell `sp - base + off / 8`, where `off`
      is read from cell `sp - index`, holds the accumulator's low byte; the other seven bytes and
      every other cell keep their values, and only pc moves on. */
  predicate ByteStored(d: Dialect, s: State, v: int, t: State)
    requires Fetchable(s)
  {
    var j := s.sp - LowByte(v);
    && InStack(j)
    && var off := IntOf(d, s.stack[j]);
       var i := s.sp - IntOf(d, High(v)) + TDiv(off, 8);
       && InStack(i) && 0 <= TRem(off, 8) < 8
       && |t.stack| == STACK_SIZE
       && (forall c :: 0 <= c < STACK_SIZE && c != i ==> t.stack[c] == s.stack[c])
       && WordBytes(t.stack[i]) == WordBytes(s.stack[i])[TRem(off, 8) := LowByte(s.acc)]
       && t == s.(pc := s.pc + 1, stack := t.stack)
  }

  lemma StoreByteFields(d: Dialect, s: State, v: int)
    requires Fetchable(s) && StoreByte(d, s, v).Continue?
    ensures ByteStored(d, s, v, StoreByte(d, s, v).next)
  {}

  lemma IncrLocalStores(d: Dialect, s: State, v: int)
    requires Fetchable(s) && FitsInt32(High(v)) && InStack(s.sp - High(v))
    ensures var i := s.sp - High(v);
            var x := Wrap(s.stack[i] + Int8(LowByte(v)));
            IncrLocal(d, s, v) == Continue(s.(pc := s.pc + 1, stack := s.stack[i := x],
                                             acc := if d == Go then x else s.acc))
  {
    assert IntOf(d, High(v)) == High(v);
  }

  lemma IncrRelativeStores(s: State, v: int)
    requires Fetchable(s) && 0 <= s.pc + High(v) < |s.program|
    ensures var i := s.pc + High(v);
            var x := Wrap(s.program[i] + Int8(LowByte(v)));
            IncrRelative(s, v) == Continue(s.(pc := s.pc + 1, program := s.program[i := x], acc := x))
  {}

  lemma StackReadAgrees(s: State, k: Kind, v: int)
    requires Fetchable(s) && (k == LoadS || k == AddS || k == SubS || k == MulS) && FitsInt32(v)
    ensures StackRead(C, s, k, v) == StackRead(Go, s, k, v)
  {
    assert IntOf(C, v) == IntOf(Go, v);
  }

  lemma FrameAgrees(s: State, k: Kind, v: int)
    requires Fetchable(s) && Fits56(v) && (k == Pop || k == Ret) && FitsInt32(v)
    ensures Frame(C, s, k, v) == Frame(Go, s, k, v)
  {
    assert IntOf(C, v) == IntOf(Go, v);
  }

  /** LoadI puts its operand in the accumulator and moves on. */
  lemma LoadImmediate(d: Dialect, isa: Numbering, host: Host, s: State, v: int)
    requires At(isa, s, LoadI, v)
    ensures Step(d, isa, host, s) == Continue(s.(pc := s.pc + 1, acc := v))
  {
    Dispatch(d, isa, host, s, LoadI, v);
  }

  /** AddI adds its operand to the accumulator, wrapping around, and moves on. */
  lemma AddImmediate(d: Dialect, isa: Numbering, host: Host, s: State, v: int)
    requires At(isa, s, AddI, v)
    ensures Step(d, isa, host, s) == Continue(s.(pc := s.pc + 1, acc := Wrap(s.acc + v)))
  {
    Dispatch(d, isa, host, s, AddI, v);
  }

  /** SubI subtracts its operand from the accumulator, wrapping around, and moves on. */
  lemma SubtractImmediate(d: Dialect, isa: Numbering, host: Host, s: State, v: int)
    requires At(isa, s, SubI, v)
    ensures Step(d, isa, host, s) == Continue(s.(pc := s.pc + 1, acc := Wrap(s.acc - v)))
  {
    Dispatch(d, isa, host, s, SubI, v);
  }

  /** MulI multiplies the accumulator by its operand, wrapping around, and moves on. */
  lemma MultiplyImmediate(d: Dialect, isa: Numbering, host: Host, s: State, v: int)
    requires At(isa, s, MulI, v)
    ensures Step(d, isa, host, s) == Continue(s.(pc := s.pc + 1, acc := Wrap(s.acc * v)))
  {
    Dispatch(d, isa, host, s, MulI, v);
  }

  /** AndI masks the accumulator with its operand (`Int64.AndMask` and `Int64.AndLowByte` say what
      a mask keeps). */
  lemma AndImmediate(d: Dialect, isa: Numbering, host: Host, s: State, v: int)
    requires At(isa, s, AndI, v)
    ensures Step(d, isa, host, s) == Continue(s.(pc := s.pc + 1, acc := And(s.acc, v)))
  {
    Dispatch(d, isa, host, s, AndI, v);
  }

  lemma SharedRelatives(k: Kind)
    requires k == LoadR || k == AddR || k == SubR || k == MulR || k == DivR || k == StoreR
    ensures IsProgramRelative(k) && Supported(C, k) && Supported(Go, k)
  {}

  /** The accumulator combined with `w` by AddS/AddR, SubS/SubR or MulS/MulR, before wrapping. */
  function Combined(k: Kind, acc: int, w: int): int
  {
    if k == AddS || k == AddR then acc + w else if k == SubS || k == SubR then acc - w else acc * w
  }

  /** The accumulator operation of AddS/AddR, SubS/SubR or MulS/MulR. */
  function AluOf(k: Kind): Alu
  {
    if k == AddS || k == AddR then Add else if k == SubS || k == SubR then Sub else Mul
  }

  lemma StepsStackRead(d: Dialect, isa: Numbering, host: Host, s: State, k: Kind, v: int)
    requires At(isa, s, k, v) && (k == LoadS || k == AddS || k == SubS || k == MulS)
    ensures Step(d, isa, host, s) == StackRead(d, s, k, v)
  {
    SharedStackReads(k);
    Dispatch(d, isa, host, s, k, v);
    ExecutesStackRead(d, host, s, k, v);
  }

  lemma StepsProgramRelative(d: Dialect, isa: Numbering, host: Host, s: State, k: Kind, v: int)
    requires At(isa, s, k, v)
    requires k == LoadR || k == AddR || k == SubR || k == MulR || k == DivR || k == StoreR
    ensures Step(d, isa, host, s) == ProgramRelative(d, s, k, v)
  {
    SharedRelatives(k);
    Dispatch(d, isa, host, s, k, v);
    ExecutesProgramRelative(d, host, s, k, v);
  }

  /** LoadS loads cell `sp - v`, the offset cut to C's `int` in C; outside the 256 cells the step
      is undefined. */
  lemma LoadLocal(d: Dialect, isa: Numbering, host: Host, s: State, v: int)
    requires At(isa, s, LoadS, v)
    ensures var i := s.sp - IntOf(d, v);
            Step(d, isa, host, s)
            == if InStack(i) then Continue(s.(pc := s.pc + 1, acc := s.stack[i]))
               else Stop(Undefined(StackIndex(i)), s)
  {
    StepsStackRead(d, isa, host, s, LoadS, v);
    LoadLocalValue(d, s, v);
  }

  lemma LoadLocalValue(d: Dialect, s: State, v: int)
    requires Fetchable(s)
    ensures var i := s.sp - IntOf(d, v);
            StackRead(d, s, LoadS, v)
            == if InStack(i) then Continue(s.(pc := s.pc + 1, acc := s.stack[i]))
               else Stop(Undefined(StackIndex(i)), s)
  {}

  /** AddS, SubS and MulS combine the accumulator with cell `sp - v`, wrapping around. */
  lemma LocalArithmetic(d: Dialect, isa: Numbering, host: Host, s: State, k: Kind, v: int)
    requires At(isa, s, k, v) && (k == AddS || k == SubS || k == MulS)
    ensures var i := s.sp - IntOf(d, v);
            Step(d, isa, host, s)
            == if InStack(i) then Continue(s.(pc := s.pc + 1, acc := Wrap(Combined(k, s.acc, s.stack[i]))))
               else Stop(Undefined(StackIndex(i)), s)
  {
    StepsStackRead(d, isa, host, s, k, v);
    LocalArithmeticValue(d, s, k, v);
  }

  lemma LocalArithmeticValue(d: Dialect, s: State, k: Kind, v: int)
    requires Fetchable(s) && (k == AddS || k == SubS || k == MulS)
    ensures var i := s.sp - IntOf(d, v);
            StackRead(d, s, k, v)
            == if InStack(i) then Continue(s.(pc := s.pc + 1, acc := Wrap(Combined(k, s.acc, s.stack[i]))))
               else Stop(Undefined(StackIndex(i)), s)
  {
    StackReadsLocal(d, s, k, v);
    LocalValue(d, s, k, IntOf(d, v));
  }

  lemma StackReadsLocal(d: Dialect, s: State, k: Kind, v: int)
    requires Fetchable(s) && (k == AddS || k == SubS || k == MulS)
    ensures StackRead(d, s, k, v) == Local(d, AluOf(k), s, IntOf(d, v))
  {
    SharedStackReads(k);
  }

  lemma LocalValue(d: Dialect, s: State, k: Kind, offset: int)
    requires Fetchable(s) && (k == AddS || k == SubS || k == MulS)
    ensures var i := s.sp - offset;
            Local(d, AluOf(k), s, offset)
            == if InStack(i) then Continue(s.(pc := s.pc + 1, acc := Wrap(Combined(k, s.acc, s.stack[i]))))
               else Stop(Undefined(StackIndex(i)), s)
  {
    var i := s.sp - offset;
    if InStack(i) {
      AluWraps(d, s, k, s.stack[i]);
    }
  }

  lemma RelativeValue(d: Dialect, s: State, k: Kind, offset: int)
    requires Fetchable(s) && (k == AddR || k == SubR || k == MulR)
    ensures var i := s.pc + offset;
            Relative(d, AluOf(k), s, offset)
            == if 0 <= i < |s.program| then Continue(s.(pc := s.pc + 1, acc := Wrap(Combined(k, s.acc, s.program[i]))))
               else Stop(Undefined(ProgramIndex(i)), s)
  {
    var i := s.pc + offset;
    if 0 <= i < |s.program| {
      AluWraps(d, s, k, s.program[i]);
    }
  }

  /** Addition, subtraction and multiplication never fault; they wrap. */
  lemma AluWraps(d: Dialect, s: State, k: Kind, w: i64)
    requires Fetchable(s) && (k == AddS || k == SubS || k == MulS || k == AddR || k == SubR || k == MulR)
    ensures SetAcc(s, Apply(d, AluOf(k), s.acc, w)) == Continue(s.(pc := s.pc + 1, acc := Wrap(Combined(k, s.acc, w))))
  {}

  /** StoreS writes the accumulator into cell `sp - v` and changes nothing else. */
  lemma StoreLocalCell(d: Dialect, isa: Numbering, host: Host, s: State, v: int)
    requires At(isa, s, StoreS, v)
    ensures var i := s.sp - IntOf(d, v);
            Step(d, isa, host, s)
            == if InStack(i) then Continue(s.(pc := s.pc + 1, stack := s.stack[i := s.acc]))
               else Stop(Undefined(StackIndex(i)), s)
  {
    Dispatch(d, isa, host, s, StoreS, v);
    ExecutesStoreLocal(d, host, s, v);
  }

  lemma ExecutesStoreLocal(d: Dialect, host: Host, s: State, v: int)
    requires Fetchable(s) && Fits56(v)
    ensures var i := s.sp - IntOf(d, v);
            Execute(d, host, s, StoreS, v)
            == if InStack(i) then Continue(s.(pc := s.pc + 1, stack := s.stack[i := s.acc]))
               else Stop(Undefined(StackIndex(i)), s)
  {
    ExecutesStackWrite(d, host, s, StoreS, v);
  }

  /** LoadR loads the program word at `pc + v`; outside the program the step is undefined. */
  lemma LoadRelativeWord(d: Dialect, isa: Numbering, host: Host, s: State, v: int)
    requires At(isa, s, LoadR, v)
    ensures var i := s.pc + v;
            Step(d, isa, host, s)
            == if 0 <= i < |s.program| then Continue(s.(pc := s.pc + 1, acc := s.program[i]))
               else Stop(Undefined(ProgramIndex(i)), s)
  {
    StepsProgramRelative(d, isa, host, s, LoadR, v);
    LoadRelativeValue(d, s, v);
  }

  lemma LoadRelativeValue(d: Dialect, s: State, v: int)
    requires Fetchable(s)
    ensures var i := s.pc + v;
            ProgramRelative(d, s, LoadR, v)
            == if 0 <= i < |s.program| then Continue(s.(pc := s.pc + 1, acc := s.program[i]))
               else Stop(Undefined(ProgramIndex(i)), s)
  {}

  /** AddR, SubR and MulR combine the accumulator with the program word at `pc + v`, wrapping
      around. */
  lemma RelativeArithmetic(d: Dialect, isa: Numbering, host: Host, s: State, k: Kind, v: int)
    requires At(isa, s, k, v) && (k == AddR || k == SubR || k == MulR)
    ensures var i := s.pc + v;
            Step(d, isa, host, s)
            == if 0 <= i < |s.program| then Continue(s.(pc := s.pc + 1, acc := Wrap(Combined(k, s.acc, s.program[i]))))
               else Stop(Undefined(ProgramIndex(i)), s)
  {
    StepsProgramRelative(d, isa, host, s, k, v);
    ProgramRelativesRelative(d, s, k, v);
    RelativeValue(d, s, k, v);
  }

  lemma ProgramRelativesRelative(d: Dialect, s: State, k: Kind, v: int)
    requires Fetchable(s) && (k == AddR || k == SubR || k == MulR)
    ensures ProgramRelative(d, s, k, v) == Relative(d, AluOf(k), s, v)
  {
    SharedRelatives(k);
  }

  /** DivR divides the accumulator by the program word at `pc + v`, truncating; a zero divisor, and
      in C `INT64_MIN / -1`, are undefined. */
  lemma DivideRelative(d: Dialect, isa: Numbering, host: Host, s: State, v: int)
    requires At(isa, s, DivR, v)
    ensures var i := s.pc + v;
            Step(d, isa, host, s)
            == if !(0 <= i < |s.program|) then Stop(Undefined(ProgramIndex(i)), s)
               else
                 var w := s.program[i];
                 if w == 0 then Stop(Undefined(DivideByZero), s)
                 else if d == C && s.acc == -TWO63 && w == -1 then Stop(Undefined(DivideOverflow), s)
                 else Continue(s.(pc := s.pc + 1, acc := Wrap(TDiv(s.acc, w))))
  {
    StepsProgramRelative(d, isa, host, s, DivR, v);
    assert ProgramRelative(d, s, DivR, v) == Relative(d, Div, s, v);
    DivideRelativeValue(d, s, v);
  }

  lemma DivideRelativeValue(d: Dialect, s: State, offset: int)
    requires Fetchable(s)
    ensures var i := s.pc + offset;
            Relative(d, Div, s, offset)
            == if !(0 <= i < |s.program|) then Stop(Undefined(ProgramIndex(i)), s)
               else
                 var w := s.program[i];
                 if w == 0 then Stop(Undefined(DivideByZero), s)
                 else if d == C && s.acc == -TWO63 && w == -1 then Stop(Undefined(DivideOverflow), s)
                 else Continue(s.(pc := s.pc + 1, acc := Wrap(TDiv(s.acc, w))))
  {}

  /** StoreR writes the accumulator into the program word at `pc + v` and changes nothing else. */
  lemma StoreRelativeWord(d: Dialect, isa: Numbering, host: Host, s: State, v: int)
    requires At(isa, s, StoreR, v)
    ensures var i := s.pc + v;
            Step(d, isa, host, s)
            == if 0 <= i < |s.program| then Continue(s.(pc := s.pc + 1, program := s.program[i := s.acc]))
               else Stop(Undefined(ProgramIndex(i)), s)
  {
    StepsProgramRelative(d, isa, host, s, StoreR, v);
    StoreRelativeValue(d, s, v);
  }

  lemma StoreRelativeValue(d: Dialect, s: State, v: int)
    requires Fetchable(s)
    ensures var i := s.pc + v;
            ProgramRelative(d, s, StoreR, v)
            == if 0 <= i < |s.program| then Continue(s.(pc := s.pc + 1, program := s.program[i := s.acc]))
               else Stop(Undefined(ProgramIndex(i)), s)
  {}

  /** Every instruction that is not a jump, Call or Ret moves to the next instruction. */
  lemma PcAdvances(d: Dialect, isa: Numbering, host: Host, s: State, k: Kind, v: int)
    requires At(isa, s, k, v) && !ControlFlow(k)
    ensures Step(d, isa, host, s).Continue? ==> Step(d, isa, host, s).next.pc == s.pc + 1
  {}

  /** JNZ, JNEG and JPOS jump by the operand exactly when the accumulator is non-zero, negative or
      not negative; either way nothing but pc changes. Go has no such instructions. */
  lemma ConditionalJumps(isa: Numbering, host: Host, s: State, k: Kind, v: int)
    requires At(isa, s, k, v) && (k == JNZ || k == JNEG || k == JPOS)
    ensures var taken := if k == JNZ then s.acc != 0 else if k == JNEG then s.acc < 0 else s.acc >= 0;
            Step(C, isa, host, s) == Continue(s.(pc := if taken then s.pc + v else s.pc + 1))
    ensures Step(Go, isa, host, s) == Stop(Failed(UnknownOpcode(Opcode(s.program[s.pc]))), s)
  {}

  /** Go's comparisons test the accumulator against the operand's low byte (0..255) and jump by
      the rest of the operand. C has no such instructions. */
  lemma CompareJumps(isa: Numbering, host: Host, s: State, k: Kind, v: int)
    requires At(isa, s, k, v) && IsCompare(k)
    ensures var b := LowByte(v);
            var taken := || (k == JNE && s.acc != b) || (k == JEQ && s.acc == b)
                         || (k == JLT && s.acc < b) || (k == JGT && s.acc > b)
                         || (k == JGTE && s.acc >= b) || (k == JLTE && s.acc <= b);
            Step(Go, isa, host, s) == Continue(s.(pc := if taken then s.pc + High(v) else s.pc + 1))
    ensures Step(C, isa, host, s) == Stop(Failed(UnknownOpcode(Opcode(s.program[s.pc]))), s)
  {}

  /** JumpR moves pc by the operand and changes nothing else. */
  lemma RelativeJump(d: Dialect, isa: Numbering, host: Host, s: State, v: int)
    requires At(isa, s, JumpR, v)
    ensures Step(d, isa, host, s) == Continue(s.(pc := s.pc + v))
  {}

  /** A Call at p followed by `Ret 0` at its target resumes at p + 1 with the stack pointer,
      accumulator, program and trace as they were before the Call. */
  lemma CallThenReturn(d: Dialect, isa: Numbering, host: Host, s: State, o: int)
    requires At(isa, s, Call, o) && InStack(s.sp + 1)
    requires WordIs(isa, s.program, s.pc + o, Ret, 0)
    ensures Step(d, isa, host, s).Continue?
    ensures Step(d, isa, host, s).next.pc == s.pc + o
    ensures var u := Step(d, isa, host, Step(d, isa, host, s).next);
            && u.Continue?
            && u.next == s.(stack := s.stack[s.sp + 1 := s.pc + 1], pc := s.pc + 1)
  {
    var t := s.(stack := s.stack[s.sp + 1 := s.pc + 1], sp := s.sp + 1, pc := s.pc + o);
    WordAt(isa, t, Ret, 0);
    CallReturnFrames(d, s, o);
    StepsFrame(d, isa, host, s, Call, o);
    StepsFrame(d, isa, host, t, Ret, 0);
  }

  /** The same for the two instructions' effects. */
  lemma CallReturnFrames(d: Dialect, s: State, o: int)
    requires Fetchable(s) && Fits56(o) && InStack(s.sp + 1) && 0 <= s.pc + o < |s.program|
    ensures var t := s.(stack := s.stack[s.sp + 1 := s.pc + 1], sp := s.sp + 1, pc := s.pc + o);
            && Frame(d, s, Call, o) == Continue(t)
            && Frame(d, t, Ret, 0) == Continue(s.(stack := s.stack[s.sp + 1 := s.pc + 1], pc := s.pc + 1))
  {
    var t := s.(stack := s.stack[s.sp + 1 := s.pc + 1], sp := s.sp + 1, pc := s.pc + o);
    CallPushes(s, o);
    ReturnPops(d, t, 0);
  }

  /** `Ret k` with k > 0 first drops k cells, then pops the return address. */
  lemma ReturnDiscards(d: Dialect, isa: Numbering, host: Host, s: State, k: int)
    requires At(isa, s, Ret, k) && 0 <= k < TWO31 && InStack(s.sp - k)
    ensures Step(d, isa, host, s) == Continue(s.(pc := s.stack[s.sp - k], sp := s.sp - k - 1))
  {
    StepsFrame(d, isa, host, s, Ret, k);
    ReturnPops(d, s, k);
  }

  /** `Push n` puts n zero cells and then the accumulator above the stack pointer; `Pop n` right
      after it brings back the accumulator and the stack pointer. */
  lemma PushThenPop(d: Dialect, isa: Numbering, host: Host, s: State, n: int)
    requires At(isa, s, Push, n) && 0 <= n < TWO31
    requires 0 <= s.sp + 1 && s.sp + n + 1 < STACK_SIZE
    requires WordIs(isa, s.program, s.pc + 1, Pop, n)
    ensures Step(d, isa, host, s).Continue?
    ensures var t := Step(d, isa, host, s).next;
            && t.sp == s.sp + n + 1 && t.stack[s.sp + n + 1] == s.acc
            && (forall i :: s.sp < i <= s.sp + n ==> t.stack[i] == 0)
            && (forall i :: 0 <= i <= s.sp || s.sp + n + 1 < i < STACK_SIZE ==> t.stack[i] == s.stack[i])
    ensures var t := Step(d, isa, host, s).next;
            var u := Step(d, isa, host, t);
            && u.Continue?
            && u.next.acc == s.acc && u.next.sp == s.sp && u.next.pc == s.pc + 2
            && u.next.stack == t.stack && u.next.program == s.program
  {
    StepsFrame(d, isa, host, s, Push, n);
    PushLayout(s, n);
    var t := Step(d, isa, host, s).next;
    WordAt(isa, t, Pop, n);
    StepsFrame(d, isa, host, t, Pop, n);
    PopTop(d, t, n);
  }

  /** StoreSB replaces one byte of one cell: byte `off % 8` of cell `sp - base + off / 8`, where
      `off` is read from cell `sp - index`; the other seven bytes and every other cell keep their
      values. */
  lemma StoreByteOnly(d: Dialect, isa: Numbering, host: Host, s: State, v: int)
    requires At(isa, s, StoreSB, v)
    ensures Step(d, isa, host, s).Continue? ==> ByteStored(d, s, v, Step(d, isa, host, s).next)
  {
    Dispatch(d, isa, host, s, StoreSB, v);
    ExecutesStoreByte(d, host, s, v);
    if StoreByte(d, s, v).Continue? {
      StoreByteFields(d, s, v);
    }
  }

  /** IdivS on cell `i` took `s` to `t`: the cell became the truncated quotient of itself by the
      accumulator and the accumulator the remainder, which takes the dividend's sign and is smaller
      than the divisor. */
  predicate DividedInPlace(d: Dialect, s: State, i: int, t: State)
    requires Valid(s) && Valid(t)
  {
    && InStack(i) && s.acc != 0
    && t.stack == s.stack[i := t.stack[i]]
    && t.stack[i] == Wrap(TDiv(s.stack[i], s.acc)) && t.acc == TRem(s.stack[i], s.acc)
    && Abs(t.acc) < Abs(s.acc) && (t.acc != 0 ==> (t.acc < 0 <==> s.stack[i] < 0))
    && (d == C ==> s.stack[i] == s.acc * t.stack[i] + t.acc)
  }

  /** IdivS, when it continues, divides cell `sp - v` in place. */
  lemma DivLocalSplits(d: Dialect, isa: Numbering, host: Host, s: State, v: int)
    requires At(isa, s, IdivS, v)
    ensures Step(d, isa, host, s).Continue? ==>
            DividedInPlace(d, s, s.sp - IntOf(d, v), Step(d, isa, host, s).next)
  {
    StepsDivLocal(d, isa, host, s, v);
    DivLocalFields(d, s, IntOf(d, v));
  }

  lemma StepsDivLocal(d: Dialect, isa: Numbering, host: Host, s: State, v: int)
    requires At(isa, s, IdivS, v)
    ensures Step(d, isa, host, s) == DivLocal(d, s, IntOf(d, v))
  {
    Dispatch(d, isa, host, s, IdivS, v);
    ExecutesStackWrite(d, host, s, IdivS, v);
  }

  lemma DivLocalFields(d: Dialect, s: State, offset: int)
    requires Fetchable(s)
    ensures DivLocal(d, s, offset).Continue? ==>
            DividedInPlace(d, s, s.sp - offset, DivLocal(d, s, offset).next)
  {
    var i := s.sp - offset;
    if d == C && DivLocal(d, s, offset).Continue? {
      TDivInRange(s.stack[i], s.acc);
    }
  }

  /** Exit stops with the syscall argument: C's process status is its low byte, Go returns it. */
  lemma ExitOutcome(d: Dialect, isa: Numbering, host: Host, s: State, k: Kind, v: int)
    requires At(isa, s, k, v) && (k == Sys || k == SysS)
    requires LowByte(v) == Syscalls.Id(Syscalls.Exit)
    ensures Step(d, isa, host, s) == Stop(Exited(High(v)), s)
    ensures CExitStatus(Exited(High(v))) == Some(LowByte(High(v)))
    ensures GoExitCode(Exited(High(v))) == Some(High(v))
  {}

  /** An id that names no syscall stops the machine: status 1 in C, code 99 in Go. */
  lemma UnknownSyscallIsFatal(d: Dialect, isa: Numbering, host: Host, s: State, k: Kind, v: int)
    requires At(isa, s, k, v) && (k == Sys || k == SysS)
    requires !(1 <= LowByte(v) <= 3)
    ensures Step(d, isa, host, s) == Stop(Failed(UnknownSyscall(LowByte(v))), s)
    ensures CExitStatus(Failed(UnknownSyscall(LowByte(v)))) == Some(1)
    ensures GoExitCode(Failed(UnknownSyscall(LowByte(v)))) == Some(99)
  {}

  /** An opcode outside the enumeration stops the machine: status 1 in C, code -1 in Go. */
  lemma UnknownOpcodeIsFatal(d: Dialect, isa: Numbering, host: Host, s: State)
    requires Fetchable(s) && KindOf(isa, Opcode(s.program[s.pc])).None?
    ensures Step(d, isa, host, s) == Stop(Failed(UnknownOpcode(Opcode(s.program[s.pc]))), s)
    ensures CExitStatus(Failed(UnknownOpcode(Opcode(s.program[s.pc])))) == Some(1)
    ensures GoExitCode(Failed(UnknownOpcode(Opcode(s.program[s.pc])))) == Some(-1)
  {}

  /** Leaving the program ends the run with status 0, keeping the accumulator. */
  lemma EndOfProgram(d: Dialect, isa: Numbering, host: Host, s: State)
    requires Valid(s) && s.pc >= |s.program|
    ensures Step(d, isa, host, s) == Stop(Finished, s)
    ensures CExitStatus(Finished) == Some(0) && GoExitCode(Finished) == Some(0)
  {}

  /** C rejects a Sleep argument outside [0, 1000] before sleeping at all; Go sleeps for any
      argument. */
  lemma SleepRange(isa: Numbering, host: Host, s: State, k: Kind, v: int)
    requires At(isa, s, k, v) && (k == Sys || k == SysS)
    requires LowByte(v) == Syscalls.Id(Syscalls.Sleep)
    ensures !(0 <= High(v) <= 1000) ==> Step(C, isa, host, s) == Stop(Failed(SleepOutOfRange(High(v))), s)
    ensures 0 <= High(v) <= 1000 ==>
              Step(C, isa, host, s) == Continue(s.(pc := s.pc + 1, trace := s.trace + [Slept(High(v))]))
    ensures Step(Go, isa, host, s) == Continue(s.(pc := s.pc + 1, trace := s.trace + [Slept(High(v))]))
  {}

  /** A Write from the program prints the str8 at `pc + arg`. The accumulator becomes its length
      when the host took every byte and -1 otherwise, which C treats as fatal and Go does not. */
  lemma ProgramWrite(d: Dialect, isa: Numbering, host: Host, s: State, v: int)
    requires At(isa, s, Sys, v) && LowByte(v) == Syscalls.Id(Syscalls.Write)
    requires FitsInt32(s.pc + High(v))
    requires Str8.WriteInBounds(s.program, 8 * (s.pc + High(v)))
    requires MemBytes(s.program)[8 * (s.pc + High(v))] != 0
    ensures var index := 8 * (s.pc + High(v));
            var length := MemBytes(s.program)[index];
            var data := Str8.Str8At(s.program, index);
            var n := host(|s.trace|, data);
            var t := s.(pc := s.pc + 1, acc := if n == length then length else -1,
                        trace := s.trace + [Wrote(data, n)]);
            && |data| == length
            && Step(d, isa, host, s) == (if d == C && n != length then Stop(Failed(WriteFailed), t) else Continue(t))
  {
    Dispatch(d, isa, host, s, Sys, v);
    assert Execute(d, host, s, Sys, v) == Syscall(d, host, s, false, v);
    ProgramWriteEffect(d, host, s, v);
  }

  /** The same at the level of the syscall itself. */
  lemma ProgramWriteEffect(d: Dialect, host: Host, s: State, v: int)
    requires Fetchable(s) && LowByte(v) == Syscalls.Id(Syscalls.Write)
    requires FitsInt32(s.pc + High(v))
    requires Str8.WriteInBounds(s.program, 8 * (s.pc + High(v)))
    requires MemBytes(s.program)[8 * (s.pc + High(v))] != 0
    ensures var index := 8 * (s.pc + High(v));
            var length := MemBytes(s.program)[index];
            var data := Str8.Str8At(s.program, index);
            var n := host(|s.trace|, data);
            var t := s.(pc := s.pc + 1, acc := if n == length then length else -1,
                        trace := s.trace + [Wrote(data, n)]);
            && |data| == length
            && Syscall(d, host, s, false, v) == (if d == C && n != length then Stop(Failed(WriteFailed), t) else Continue(t))
  {
    assert WriteTarget(d, s, false, High(v)) == Ok((s.program, 8 * (s.pc + High(v))));
  }

  /** The byte the stack-relative Write starts at. Go computes `(sp - arg + acc / 8) * 8 + acc % 8`
      with truncating division, which is `(sp - arg) * 8 + acc` for every accumulator, negative
      ones included; C computes the same whenever its 32-bit conversions lose nothing. */
  lemma StackWriteIndex(s: State, arg: int)
    ensures WriteTarget(Go, s, true, arg) == Ok((s.stack, 8 * (s.sp - arg) + s.acc))
    ensures FitsInt32(arg) && FitsInt32(s.acc) && FitsInt32(s.sp - arg) ==>
              WriteTarget(C, s, true, arg) == WriteTarget(Go, s, true, arg)
  {
    assert 8 * TDiv(s.acc, 8) + TRem(s.acc, 8) == s.acc;
  }

  /** The two interpreters agree on every instruction they share that involves no 32-bit
      conversion and no division. */
  lemma DialectsAgree(isa: Numbering, host: Host, s: State, k: Kind, v: int)
    requires At(isa, s, k, v)
    requires k in {LoadI, AddI, SubI, MulI, AndI, JumpR, LoadR, AddR, SubR, MulR, StoreR, IncrR, Call, Push}
    ensures Step(C, isa, host, s) == Step(Go, isa, host, s)
  {
    Dispatch(C, isa, host, s, k, v);
    Dispatch(Go, isa, host, s, k, v);
    ExecuteAgrees(host, s, k, v);
  }

  /** The same for the instructions' effects. */
  lemma ExecuteAgrees(host: Host, s: State, k: Kind, v: int)
    requires Fetchable(s) && Fits56(v)
    requires k in {LoadI, AddI, SubI, MulI, AndI, JumpR, LoadR, AddR, SubR, MulR, StoreR, IncrR, Call, Push}
    ensures Execute(C, host, s, k, v) == Execute(Go, host, s, k, v)
  {
    if k in {LoadI, AddI, SubI, MulI, AndI} {
      ExecutesImmediate(C, host, s, k, v);
      ExecutesImmediate(Go, host, s, k, v);
      ImmediateAgrees(s, k, v);
    } else if k == JumpR {
      ExecutesJump(C, host, s, k, v);
      ExecutesJump(Go, host, s, k, v);
    } else if k in {Call, Push} {
      ExecutesFrame(C, host, s, k, v);
      ExecutesFrame(Go, host, s, k, v);
    } else {
      ExecutesProgramRelative(C, host, s, k, v);
      ExecutesProgramRelative(Go, host, s, k, v);
      ProgramRelativeAgrees(s, k, v);
    }
  }

  lemma ImmediateAgrees(s: State, k: Kind, v: int)
    requires Fetchable(s) && Fits56(v) && k in {LoadI, AddI, SubI, MulI, AndI}
    ensures Immediate(C, s, k, v) == Immediate(Go, s, k, v)
  {}

  lemma ProgramRelativeAgrees(s: State, k: Kind, v: int)
    requires Fetchable(s) && k in {LoadR, AddR, SubR, MulR, StoreR, IncrR}
    ensures ProgramRelative(C, s, k, v) == ProgramRelative(Go, s, k, v)
  {
    if k in {AddR, SubR, MulR} {
      var f := if k == AddR then Add else if k == SubR then Sub else Mul;
      assert ProgramRelative(C, s, k, v) == Relative(C, f, s, v);
      assert ProgramRelative(Go, s, k, v) == Relative(Go, f, s, v);
    }
  }

  /** Division agrees too, except on `INT64_MIN / -1`. */
  lemma DivisionAgrees(isa: Numbering, host: Host, s: State, k: Kind, v: int)
    requires At(isa, s, k, v) && (k == DivI || k == ModI) && !(s.acc == -TWO63 && v == -1)
    ensures Step(C, isa, host, s) == Step(Go, isa, host, s)
  {
    Dispatch(C, isa, host, s, k, v);
    Dispatch(Go, isa, host, s, k, v);
  }

  /** Stack-relative instructions agree when the offset survives C's conversion to `int`. */
  lemma LocalsAgree(isa: Numbering, host: Host, s: State, k: Kind, v: int)
    requires At(isa, s, k, v) && k in {LoadS, StoreS, AddS, SubS, MulS, Pop, Ret} && FitsInt32(v)
    ensures Step(C, isa, host, s) == Step(Go, isa, host, s)
  {
    Dispatch(C, isa, host, s, k, v);
    Dispatch(Go, isa, host, s, k, v);
    ExecuteLocalsAgree(host, s, k, v);
  }

  /** The same for the instructions' effects. */
  lemma ExecuteLocalsAgree(host: Host, s: State, k: Kind, v: int)
    requires Fetchable(s) && Fits56(v) && k in {LoadS, StoreS, AddS, SubS, MulS, Pop, Ret} && FitsInt32(v)
    ensures Execute(C, host, s, k, v) == Execute(Go, host, s, k, v)
  {
    if k == Pop || k == Ret {
      ExecuteFrameAgrees(host, s, k, v);
    } else if k == StoreS {
      ExecuteStoreLocalAgrees(host, s, v);
    } else {
      ExecuteStackReadAgrees(host, s, k, v);
    }
  }

  lemma ExecuteFrameAgrees(host: Host, s: State, k: Kind, v: int)
    requires Fetchable(s) && Fits56(v) && (k == Pop || k == Ret) && FitsInt32(v)
    ensures Execute(C, host, s, k, v) == Execute(Go, host, s, k, v)
  {
    FrameAgrees(s, k, v);
    ExecutesFrame(C, host, s, k, v);
    ExecutesFrame(Go, host, s, k, v);
  }

  lemma ExecuteStoreLocalAgrees(host: Host, s: State, v: int)
    requires Fetchable(s) && Fits56(v) && FitsInt32(v)
    ensures Execute(C, host, s, StoreS, v) == Execute(Go, host, s, StoreS, v)
  {
    assert IntOf(C, v) == v;
    ExecutesStackWrite(C, host, s, StoreS, v);
    ExecutesStackWrite(Go, host, s, StoreS, v);
  }

  lemma ExecuteStackReadAgrees(host: Host, s: State, k: Kind, v: int)
    requires Fetchable(s) && Fits56(v) && (k == LoadS || k == AddS || k == SubS || k == MulS) && FitsInt32(v)
    ensures Execute(C, host, s, k, v) == Execute(Go, host, s, k, v)
  {
    SharedStackReads(k);
    StackReadAgrees(s, k, v);
    ExecutesStackRead(C, host, s, k, v);
    ExecutesStackRead(Go, host, s, k, v);
  }

  lemma SharedStackReads(k: Kind)
    requires k == LoadS || k == AddS || k == SubS || k == MulS
    ensures IsStackRead(k) && Supported(C, k) && Supported(Go, k)
  {}

  /** ShiftI with a non-negative count below 64: Go multiplies by 2^v and wraps; C multiplies
      exactly when the accumulator is non-negative and the product fits, and is undefined
      otherwise. */
  lemma ShiftLeft(d: Dialect, isa: Numbering, host: Host, s: State, v: int)
    requires At(isa, s, ShiftI, v) && 0 <= v < 64
    ensures d == Go ==> Step(d, isa, host, s) == Continue(s.(pc := s.pc + 1, acc := Wrap(s.acc * Pow2(v))))
    ensures d == C && 0 <= s.acc && InI64(s.acc * Pow2(v)) ==>
              Step(d, isa, host, s) == Continue(s.(pc := s.pc + 1, acc := s.acc * Pow2(v)))
    ensures d == C && (s.acc < 0 || !InI64(s.acc * Pow2(v))) ==>
              Step(d, isa, host, s) == Stop(Undefined(ShiftOverflow(s.acc, v)), s)
  {
    Dispatch(d, isa, host, s, ShiftI, v);
    assert Execute(d, host, s, ShiftI, v) == SetAcc(s, Shift(d, s.acc, v));
  }

  /** ShiftI with a negative count shifts right: in C logically, dividing the unsigned view by
      2^-v; in Go arithmetically, dividing by 2^-v rounding toward minus infinity. */
  lemma ShiftRight(isa: Numbering, host: Host, s: State, v: int)
    requires At(isa, s, ShiftI, v) && -64 < v < 0
    ensures Step(C, isa, host, s) == Continue(s.(pc := s.pc + 1, acc := Lsr(s.acc, -v)))
    ensures Unsigned(Lsr(s.acc, -v)) == Unsigned(s.acc) / Pow2(-v)
    ensures Step(Go, isa, host, s) == Continue(s.(pc := s.pc + 1, acc := Asr(s.acc, -v)))
    ensures Asr(s.acc, -v) == s.acc / Pow2(-v)
  {
    ShiftRightSteps(isa, host, s, v);
    LsrIsDiv(s.acc, -v);
    AsrIsDiv(s.acc, -v);
  }

  lemma ShiftRightSteps(isa: Numbering, host: Host, s: State, v: int)
    requires At(isa, s, ShiftI, v) && -64 < v < 0
    ensures Step(C, isa, host, s) == Continue(s.(pc := s.pc + 1, acc := Lsr(s.acc, -v)))
    ensures Step(Go, isa, host, s) == Continue(s.(pc := s.pc + 1, acc := Asr(s.acc, -v)))
  {
    Dispatch(C, isa, host, s, ShiftI, v);
    Dispatch(Go, isa, host, s, ShiftI, v);
    assert Execute(C, host, s, ShiftI, v) == SetAcc(s, Shift(C, s.acc, v));
    assert Execute(Go, host, s, ShiftI, v) == SetAcc(s, Shift(Go, s.acc, v));
  }

  /** C leaves shift counts of 64 or more, either way, undefined. */
  lemma ShiftCountUndefined(isa: Numbering, host: Host, s: State, v: int)
    requires At(isa, s, ShiftI, v) && (v <= -64 || v >= 64)
    ensures Step(C, isa, host, s) == Stop(Undefined(ShiftCount(v)), s)
  {
    Dispatch(C, isa, host, s, ShiftI, v);
  }

  /** The right shifts part ways on a negative accumulator: C fills with zeros, Go with ones. */
  lemma ShiftDiverges(isa: Numbering, host: Host, s: State, v: int)
    requires At(isa, s, ShiftI, v) && -64 < v < 0 && s.acc < 0
    ensures Step(C, isa, host, s).Continue? && Step(C, isa, host, s).next.acc >= 0
    ensures Step(Go, isa, host, s).Continue? && Step(Go, isa, host, s).next.acc < 0
  {}

  /** IncrS and IncrR store the incremented cell; Go's IncrS and both IncrR also leave it in the
      accumulator, while C's IncrS keeps the accumulator. */
  lemma IncrementDialects(isa: Numbering, host: Host, s: State, v: int)
    requires At(isa, s, IncrS, v) && FitsInt32(High(v)) && InStack(s.sp - High(v))
    ensures var i := s.sp - High(v);
            var x := Wrap(s.stack[i] + Int8(LowByte(v)));
            && Step(C, isa, host, s) == Continue(s.(pc := s.pc + 1, stack := s.stack[i := x]))
            && Step(Go, isa, host, s) == Continue(s.(pc := s.pc + 1, stack := s.stack[i := x], acc := x))
  {
    IncrementLocal(C, isa, host, s, v);
    IncrementLocal(Go, isa, host, s, v);
  }

  lemma IncrementLocal(d: Dialect, isa: Numbering, host: Host, s: State, v: int)
    requires At(isa, s, IncrS, v) && FitsInt32(High(v)) && InStack(s.sp - High(v))
    ensures var i := s.sp - High(v);
            var x := Wrap(s.stack[i] + Int8(LowByte(v)));
            Step(d, isa, host, s) == Continue(s.(pc := s.pc + 1, stack := s.stack[i := x],
                                                 acc := if d == Go then x else s.acc))
  {
    Dispatch(d, isa, host, s, IncrS, v);
    ExecutesStackWrite(d, host, s, IncrS, v);
    IncrLocalStores(d, s, v);
  }

  lemma IncrementRelative(d: Dialect, isa: Numbering, host: Host, s: State, v: int)
    requires At(isa, s, IncrR, v) && 0 <= s.pc + High(v) < |s.program|
    ensures var i := s.pc + High(v);
            var x := Wrap(s.program[i] + Int8(LowByte(v)));
            Step(d, isa, host, s) == Continue(s.(pc := s.pc + 1, program := s.program[i := x], acc := x))
  {
    Dispatch(d, isa, host, s, IncrR, v);
    assert Execute(d, host, s, IncrR, v) == IncrRelative(s, v);
    IncrRelativeStores(s, v);
  }

  /** `INT64_MIN / -1` is undefined in C; in Go the quotient wraps to `INT64_MIN` and the
      remainder is 0. */
  lemma DivideOverflowDiverges(isa: Numbering, host: Host, s: State, k: Kind)
    requires At(isa, s, k, -1) && (k == DivI || k == ModI) && s.acc == -TWO63
    ensures Step(C, isa, host, s) == Stop(Undefined(DivideOverflow), s)
    ensures Step(Go, isa, host, s) == Continue(s.(pc := s.pc + 1, acc := if k == DivI then -TWO63 else 0))
  {}

  /** Go never reports a fatal Sleep or Write: its only error stops are unknown opcodes and
      syscalls, so every stop has an exit code unless it panicked. */
  lemma GoStopsHaveCodes(isa: Numbering, host: Host, s: State)
    requires Valid(s)
    requires Step(Go, isa, host, s).Stop?
    ensures Step(Go, isa, host, s).outcome.Undefined? || GoExitCode(Step(Go, isa, host, s).outcome).Some?
  {}
}
