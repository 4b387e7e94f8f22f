/** One step of the virtual machine, in its two variants: the C interpreter (`run_program`), which
    is the reference, and the Go interpreter (`execute`), written as branches on `Dialect` where it
    differs. The state is the accumulator, the program counter, the program (which doubles as data
    memory), the 256-cell stack with its pointer, and the trace of host events so far. */
module Vm {
  import opened Base
  import opened Int64
  import opened Bytes
  import opened Codec
  import opened Isa
  import opened Effects
  import Str8
  import Syscalls

  const STACK_SIZE: int := 256

  /** Programs are bounded so that their byte image is addressable with 63-bit offsets; with this
      bound `pc + operand` never leaves the 64-bit range. */
  const PROGRAM_LIMIT: int := 0x1000_0000_0000_0000

  datatype Dialect = C | Go

  /** Undefined behaviour in C, a runtime panic in Go. */
  datatype Fault =
    | ProgramIndex(index: int)
    | StackIndex(index: int)
    | MemoryIndex(index: int)
    | DivideByZero
    | DivideOverflow
    | ShiftCount(count: int)
    | ShiftOverflow(value: int, count: int)
    | NegativeByteOffset(offset: int)
    | IntOverflow(value: int)

  /** The conditions the interpreters report before stopping with an error status. */
  datatype Fatal =
    | UnknownOpcode(opcode: Byte)
    | UnknownSyscall(id: Byte)
    | SleepOutOfRange(ms: int)
    | WriteFailed

  datatype Outcome =
    | Exited(code: int)
    | Finished
    | Failed(reason: Fatal)
    | Undefined(fault: Fault)

  datatype State = State(acc: i64, pc: i64, program: seq<i64>, stack: seq<i64>, sp: int, trace: seq<Event>)

  predicate Valid(s: State)
  {
    |s.stack| == STACK_SIZE && |s.program| < PROGRAM_LIMIT
  }

  /** A valid state whose pc selects an instruction. */
  predicate Fetchable(s: State)
  {
    Valid(s) && 0 <= s.pc < |s.program|
  }

  datatype Transition = Continue(next: State) | Stop(outcome: Outcome, last: State)

  function StateOf(r: Transition): State
  {
    match r
    case Continue(t) => t
    case Stop(_, t) => t
  }

  /** The state a run starts from. The C stack is an uninitialised local array, so its contents are
      a parameter; Go's is zeroed. */
  function Boot(d: Dialect, program: seq<i64>, garbage: seq<i64>): (s: State)
    requires |program| < PROGRAM_LIMIT && |garbage| == STACK_SIZE
    ensures Valid(s) && s.pc == 0 && s.acc == 0 && s.sp == -1 && s.trace == []
    ensures d == Go ==> forall i :: 0 <= i < STACK_SIZE ==> s.stack[i] == 0
  {
    State(0, 0, program, if d == C then garbage else Repeat(0, STACK_SIZE), -1, [])
  }

  /** The conversion of a 64-bit value to the dialect's `int`: 32 bits in C, 64 in Go. */
  function IntOf(d: Dialect, x: int): int
  {
    if d == C then Trunc32(x) else x
  }

  predicate InStack(i: int) { 0 <= i < STACK_SIZE }

  predicate FitsInt32(x: int) { -TWO31 <= x < TWO31 }

  function Next(s: State): (t: State)
    requires Fetchable(s)
    ensures Valid(t) && t.pc == s.pc + 1
  {
    s.(pc := s.pc + 1)
  }

  /** `a / b`, truncating. In C the one overflowing case, `INT64_MIN / -1`, is undefined; in Go it
      wraps back to `INT64_MIN`. */
  function Quotient(d: Dialect, a: i64, b: i64): (r: Result<i64, Fault>)
    ensures r.Err? <==> b == 0 || (d == C && a == -TWO63 && b == -1)
    ensures r.Ok? ==> r.value == Wrap(TDiv(a, b))
  {
    if b == 0 then Err(DivideByZero)
    else if a == -TWO63 && b == -1 then
      if d == C then Err(DivideOverflow) else Ok(a)
    else
      TDivInRange(a, b);
      Ok(TDiv(a, b))
  }

  /** `a % b`, with the sign of `a`. `INT64_MIN % -1` is undefined in C and 0 in Go. */
  function Remainder(d: Dialect, a: i64, b: i64): (r: Result<i64, Fault>)
    ensures r.Err? <==> b == 0 || (d == C && a == -TWO63 && b == -1)
    ensures r.Ok? ==> r.value == TRem(a, b)
  {
    if b == 0 then Err(DivideByZero)
    else if d == C && a == -TWO63 && b == -1 then Err(DivideOverflow)
    else Ok(TRem(a, b))
  }

  datatype Alu = Add | Sub | Mul | Div | Mod

  /** The accumulator arithmetic shared by the immediate, pc-relative and stack-relative forms;
      sums and products wrap around. */
  function Apply(d: Dialect, f: Alu, a: i64, b: i64): (r: Result<i64, Fault>)
    ensures f == Add ==> r == Ok(Wrap(a + b))
    ensures f == Sub ==> r == Ok(Wrap(a - b))
    ensures f == Mul ==> r == Ok(Wrap(a * b))
    ensures f == Div ==> (r.Err? <==> b == 0 || (d == C && a == -TWO63 && b == -1))
    ensures f == Div && r.Ok? ==> r.value == Wrap(TDiv(a, b))
    ensures f == Mod ==> (r.Err? <==> b == 0 || (d == C && a == -TWO63 && b == -1))
    ensures f == Mod && r.Ok? ==> r.value == TRem(a, b)
  {
    match f
    case Add => Ok(Wrap(a + b))
    case Sub => Ok(Wrap(a - b))
    case Mul => Ok(Wrap(a * b))
    case Div => Quotient(d, a, b)
    case Mod => Remainder(d, a, b)
  }

  /** ShiftI. C shifts right logically, on the unsigned view, and a count of 64 or more is
      undefined; Go shifts right arithmetically. Go's left shift drops the bits shifted out; C's
      `<<` on a signed value is undefined unless the value is non-negative and the product by
      2^v still fits. */
  function Shift(d: Dialect, acc: i64, v: int): (r: Result<i64, Fault>)
  {
    if v < 0 then
      if d == Go then Ok(Asr(acc, -v))
      else if -v >= 64 then Err(ShiftCount(v))
      else Ok(Lsr(acc, -v))
    else if d == Go then Ok(Shl(acc, v))
    else if v >= 64 then Err(ShiftCount(v))
    else if acc < 0 || !InI64(acc * Pow2(v)) then Err(ShiftOverflow(acc, v))
    else Ok(acc * Pow2(v))
  }

  /** The accumulator replaced by a computed value, or the step's fault. */
  function SetAcc(s: State, r: Result<i64, Fault>): (t: Transition)
    requires Fetchable(s)
    ensures Valid(StateOf(t)) && StateOf(t).program == s.program
    ensures t.Continue? ==> t.next.pc == s.pc + 1
  {
    match r
    case Ok(x) => Continue(Next(s).(acc := x))
    case Err(f) => Stop(Undefined(f), s)
  }

  /** `program[pc + offset]`. */
  function ProgramWord(s: State, offset: int): (r: Result<i64, Fault>)
    ensures r.Ok? <==> 0 <= s.pc + offset < |s.program|
    ensures r.Ok? ==> r.value == s.program[s.pc + offset]
  {
    var i := s.pc + offset;
    if 0 <= i < |s.program| then Ok(s.program[i]) else Err(ProgramIndex(i))
  }

  /** `stack[i]`. */
  function StackWord(s: State, i: int): (r: Result<i64, Fault>)
    requires Valid(s)
    ensures r.Ok? <==> InStack(i)
    ensures r.Ok? ==> r.value == s.stack[i]
  {
    if InStack(i) then Ok(s.stack[i]) else Err(StackIndex(i))
  }

  /** A pc-relative operand followed by an accumulator operation. */
  function Relative(d: Dialect, f: Alu, s: State, offset: int): (t: Transition)
    requires Fetchable(s)
    ensures Valid(StateOf(t)) && StateOf(t).program == s.program
    ensures t.Continue? ==> t.next.pc == s.pc + 1
  {
    match ProgramWord(s, offset)
    case Ok(w) => SetAcc(s, Apply(d, f, s.acc, w))
    case Err(e) => Stop(Undefined(e), s)
  }

  /** A stack-relative operand, `stack[sp - offset]`, followed by an accumulator operation. */
  function Local(d: Dialect, f: Alu, s: State, offset: int): (t: Transition)
    requires Fetchable(s)
    ensures Valid(StateOf(t)) && StateOf(t).program == s.program
    ensures t.Continue? ==> t.next.pc == s.pc + 1
  {
    match StackWord(s, s.sp - offset)
    case Ok(w) => SetAcc(s, Apply(d, f, s.acc, w))
    case Err(e) => Stop(Undefined(e), s)
  }

  /** A jump by `offset` when `taken`, else the next instruction. */
  function Branch(s: State, taken: bool, offset: int): (t: State)
    requires Fetchable(s) && Fits56(offset)
    ensures Valid(t)
  {
    if taken then s.(pc := s.pc + offset) else Next(s)
  }

  /** The Go-only comparisons against the operand's low byte. */
  function Compare(k: Kind, acc: i64, value: Byte): bool
  {
    match k
    case JNE => acc != value
    case JEQ => acc == value
    case JLT => acc < value
    case JGT => acc > value
    case JGTE => acc >= value
    case _ => acc <= value
  }

  predicate IsCompare(k: Kind)
  {
    k == JNE || k == JEQ || k == JLT || k == JGT || k == JGTE || k == JLTE
  }

  /** The instructions that set pc themselves instead of moving to the next one. */
  predicate ControlFlow(k: Kind)
  {
    k in {JNZ, JNEG, JPOS, JNE, JEQ, JLT, JGT, JGTE, JLTE, JumpR, Call, Ret}
  }

  /** The instructions one interpreter has and the other does not. */
  predicate Supported(d: Dialect, k: Kind)
  {
    if d == C then !IsCompare(k) else k != JNZ && k != JNEG && k != JPOS
  }

  /** `stack` with the cells from `at` on replaced by `cells`. */
  function Splice(stack: seq<i64>, at: nat, cells: seq<i64>): (r: seq<i64>)
    requires at + |cells| <= |stack|
    ensures |r| == |stack|
    ensures forall i :: 0 <= i < |r| ==> r[i] == (if at <= i < at + |cells| then cells[i - at] else stack[i])
  {
    stack[..at] + cells + stack[at + |cells|..]
  }

  /** Push: `count` zero cells (none when it is not positive), then the accumulator. */
  function PushStep(s: State, count: int): (t: Transition)
    requires Fetchable(s)
    ensures Valid(StateOf(t)) && StateOf(t).program == s.program
    ensures t.Continue? ==> t.next.pc == s.pc + 1
  {
    var n := Max(count, 0);
    if s.sp + 1 < 0 then Stop(Undefined(StackIndex(s.sp + 1)), s)
    else if s.sp + n + 1 >= STACK_SIZE then Stop(Undefined(StackIndex(s.sp + n + 1)), s)
    else Continue(Next(s).(stack := Splice(s.stack, s.sp + 1, Repeat(0, n) + [s.acc]), sp := s.sp + n + 1))
  }

  /** Pop: the top cell into the accumulator, then `extra` more cells dropped when positive. */
  function PopStep(d: Dialect, s: State, extra: int): (t: Transition)
    requires Fetchable(s)
    ensures Valid(StateOf(t)) && StateOf(t).program == s.program
    ensures t.Continue? ==> t.next.pc == s.pc + 1
  {
    if !InStack(s.sp) then Stop(Undefined(StackIndex(s.sp)), s)
    else
      var drop := if extra > 0 then IntOf(d, extra) else 0;
      Continue(Next(s).(acc := s.stack[s.sp], sp := s.sp - 1 - drop))
  }

  /** Call: push the return address and jump. */
  function CallStep(s: State, offset: int): (t: Transition)
    requires Fetchable(s) && Fits56(offset)
    ensures Valid(StateOf(t)) && StateOf(t).program == s.program
  {
    var top := s.sp + 1;
    if !InStack(top) then Stop(Undefined(StackIndex(top)), s)
    else Continue(s.(stack := s.stack[top := s.pc + 1], sp := top, pc := s.pc + offset))
  }

  /** Ret: drop `extra` cells when positive, then pop the return address into pc. */
  function ReturnStep(d: Dialect, s: State, extra: int): (t: Transition)
    requires Fetchable(s)
    ensures Valid(StateOf(t)) && StateOf(t).program == s.program
  {
    var top := if extra > 0 then s.sp - IntOf(d, extra) else s.sp;
    if !InStack(top) then Stop(Undefined(StackIndex(top)), s)
    else Continue(s.(pc := s.stack[top], sp := top - 1))
  }

  /** StoreS. */
  function StoreLocal(s: State, offset: int): (t: Transition)
    requires Fetchable(s)
    ensures Valid(StateOf(t)) && StateOf(t).program == s.program
    ensures t.Continue? ==> t.next.pc == s.pc + 1
  {
    var i := s.sp - offset;
    if !InStack(i) then Stop(Undefined(StackIndex(i)), s)
    else Continue(Next(s).(stack := s.stack[i := s.acc]))
  }

  /** StoreR. */
  function StoreRelative(s: State, offset: int): (t: Transition)
    requires Fetchable(s)
    ensures Valid(StateOf(t)) && |StateOf(t).program| == |s.program|
    ensures t.Continue? ==> t.next.pc == s.pc + 1
  {
    var i := s.pc + offset;
    if !(0 <= i < |s.program|) then Stop(Undefined(ProgramIndex(i)), s)
    else Continue(Next(s).(program := s.program[i := s.acc]))
  }

  /** IncrR: add the signed low byte of the operand to the word at `pc + (operand >> 8)`; the new
      value is both stored and left in the accumulator, by both interpreters. */
  function IncrRelative(s: State, v: int): (t: Transition)
    requires Fetchable(s)
    ensures Valid(StateOf(t)) && |StateOf(t).program| == |s.program|
    ensures t.Continue? ==> t.next.pc == s.pc + 1
  {
    var i := s.pc + High(v);
    if !(0 <= i < |s.program|) then Stop(Undefined(ProgramIndex(i)), s)
    else
      var x := Wrap(s.program[i] + Int8(LowByte(v)));
      Continue(Next(s).(program := s.program[i := x], acc := x))
  }

  /** IncrS: add the signed low byte of the operand to `stack[sp - (operand >> 8)]`. Go also leaves
      the new value in the accumulator; C does not touch it. */
  function IncrLocal(d: Dialect, s: State, v: int): (t: Transition)
    requires Fetchable(s)
    ensures Valid(StateOf(t)) && StateOf(t).program == s.program
    ensures t.Continue? ==> t.next.pc == s.pc + 1
  {
    var i := s.sp - IntOf(d, High(v));
    if !InStack(i) then Stop(Undefined(StackIndex(i)), s)
    else
      var x := Wrap(s.stack[i] + Int8(LowByte(v)));
      Continue(Next(s).(stack := s.stack[i := x], acc := if d == Go then x else s.acc))
  }

  /** IdivS: the cell becomes the quotient of itself by the accumulator, and the accumulator the
      remainder. */
  function DivLocal(d: Dialect, s: State, offset: int): (t: Transition)
    requires Fetchable(s)
    ensures Valid(StateOf(t)) && StateOf(t).program == s.program
    ensures t.Continue? ==> t.next.pc == s.pc + 1
  {
    var i := s.sp - offset;
    if !InStack(i) then Stop(Undefined(StackIndex(i)), s)
    else
      match (Quotient(d, s.stack[i], s.acc), Remainder(d, s.stack[i], s.acc))
      case (Ok(q), Ok(m)) => Continue(Next(s).(stack := s.stack[i := q], acc := m))
      case (Err(e), _) => Stop(Undefined(e), s)
      case (_, Err(e)) => Stop(Undefined(e), s)
  }

  /** StoreSB: the operand's low byte names the cell holding a byte offset; the high part is the
      base offset of a byte buffer on the stack. The byte at that offset in the buffer becomes the
      accumulator's low byte. */
  function StoreByte(d: Dialect, s: State, v: int): (t: Transition)
    requires Fetchable(s)
    ensures Valid(StateOf(t)) && StateOf(t).program == s.program
    ensures t.Continue? ==> t.next.pc == s.pc + 1
  {
    var base := IntOf(d, High(v));
    var j := s.sp - LowByte(v);
    if !InStack(j) then Stop(Undefined(StackIndex(j)), s)
    else
      var offset := IntOf(d, s.stack[j]);
      var i := s.sp - base + TDiv(offset, 8);
      if !InStack(i) then Stop(Undefined(StackIndex(i)), s)
      else if TRem(offset, 8) < 0 then Stop(Undefined(NegativeByteOffset(offset)), s)
      else Continue(Next(s).(stack := s.stack[i := SetByte(s.stack[i], TRem(offset, 8), LowByte(s.acc))]))
  }

  /** Where a Write finds its str8: the memory (stack or program) and the byte index of the length
      byte. On the stack the accumulator is an extra byte offset. */
  function WriteTarget(d: Dialect, s: State, onStack: bool, arg: int): (r: Result<(seq<i64>, int), Fault>)
  {
    if onStack then
      if d == C then
        var base := s.sp - Trunc32(arg);
        if FitsInt32(base) then Ok((s.stack, 8 * base + Trunc32(s.acc))) else Err(IntOverflow(base))
      else Ok((s.stack, 8 * (s.sp - arg + TDiv(s.acc, 8)) + TRem(s.acc, 8)))
    else if d == C then Ok((s.program, 8 * Trunc32(s.pc + arg)))
    else Ok((s.program, 8 * (s.pc + arg)))
  }

  /** Sys and SysS: the operand's low byte is the syscall id, the rest its argument. */
  function Syscall(d: Dialect, host: Host, s: State, onStack: bool, v: int): (t: Transition)
    requires Fetchable(s)
    ensures Valid(StateOf(t)) && StateOf(t).program == s.program
    ensures t.Continue? ==> t.next.pc == s.pc + 1
    ensures t.Stop? ==> t.outcome != Finished
    ensures t.Stop? && t.outcome.Failed? && d == Go ==> t.outcome.reason.UnknownSyscall?
  {
    var id := LowByte(v);
    var arg := High(v);
    match Syscalls.SyscallOf(id)
    case None => Stop(Failed(UnknownSyscall(id)), s)
    case Some(call) =>
      if call == Syscalls.Exit then Stop(Exited(arg), s)
      else if call == Syscalls.Sleep then
        if d == C && (arg < 0 || arg > 1000) then Stop(Failed(SleepOutOfRange(arg)), s)
        else Continue(Next(s).(trace := s.trace + [Slept(arg)]))
      else
        match WriteTarget(d, s, onStack, arg)
        case Err(e) => Stop(Undefined(e), s)
        case Ok((memory, index)) =>
          match Str8.WriteStr8(host, |s.trace|, memory, index)
          case Err(_) => Stop(Undefined(MemoryIndex(index)), s)
          case Ok(w) =>
            var t := Next(s).(acc := w.ret, trace := s.trace + (if w.event.Some? then [w.event.value] else []));
            if d == C && w.ret == -1 then Stop(Failed(WriteFailed), t) else Continue(t)
  }

  /** The instruction families, in the order the enumeration lists them. */
  datatype Family = Immediates | Jumps | ProgramRelatives | Syscalls | Frames | StackReads | StackWrites

  function FamilyOf(k: Kind): Family
  {
    match k
    case LoadI | AddI | SubI | MulI | DivI | ModI | ShiftI | AndI => Immediates
    case JNZ | JNEG | JPOS | JNE | JEQ | JLT | JGT | JGTE | JLTE | JumpR => Jumps
    case LoadR | AddR | SubR | MulR | DivR | StoreR | IncrR => ProgramRelatives
    case Sys | SysS => Syscalls
    case Call | Ret | Push | Pop => Frames
    case LoadS | AddS | SubS | MulS | DivS => StackReads
    case StoreS | IncrS | IdivS | StoreSB => StackWrites
  }

  predicate IsImmediate(k: Kind) { FamilyOf(k) == Immediates }
  predicate IsJump(k: Kind) { FamilyOf(k) == Jumps }
  predicate IsProgramRelative(k: Kind) { FamilyOf(k) == ProgramRelatives }
  predicate IsFrame(k: Kind) { FamilyOf(k) == Frames }
  predicate IsStackRead(k: Kind) { FamilyOf(k) == StackReads }
  predicate IsStackWrite(k: Kind) { FamilyOf(k) == StackWrites }

  /** The accumulator instructions with an immediate operand; the final branch is AndI. */
  function Immediate(d: Dialect, s: State, k: Kind, v: int): (t: Transition)
    requires Fetchable(s) && Fits56(v) && IsImmediate(k)
    ensures t.Continue? ==> t.next == s.(pc := s.pc + 1, acc := t.next.acc)
    ensures t.Stop? ==> t.outcome.Undefined? && t.last == s
  {
    if k == LoadI then Continue(Next(s).(acc := v))
    else if k == AddI then SetAcc(s, Apply(d, Add, s.acc, v))
    else if k == SubI then SetAcc(s, Apply(d, Sub, s.acc, v))
    else if k == MulI then SetAcc(s, Apply(d, Mul, s.acc, v))
    else if k == DivI then SetAcc(s, Apply(d, Div, s.acc, v))
    else if k == ModI then SetAcc(s, Apply(d, Mod, s.acc, v))
    else if k == ShiftI then SetAcc(s, Shift(d, s.acc, v))
    else Continue(Next(s).(acc := And(s.acc, v)))
  }

  /** The jumps, conditional and unconditional; the final branch is JumpR. They change only pc. */
  function Jump(s: State, k: Kind, v: int): (t: State)
    requires Fetchable(s) && Fits56(v) && IsJump(k)
    ensures Valid(t) && t == s.(pc := t.pc)
  {
    if k == JNZ then Branch(s, s.acc != 0, v)
    else if k == JNEG then Branch(s, s.acc < 0, v)
    else if k == JPOS then Branch(s, s.acc >= 0, v)
    else if k == JNE then Branch(s, Compare(k, s.acc, LowByte(v)), High(v))
    else if k == JEQ then Branch(s, Compare(k, s.acc, LowByte(v)), High(v))
    else if k == JLT then Branch(s, Compare(k, s.acc, LowByte(v)), High(v))
    else if k == JGT then Branch(s, Compare(k, s.acc, LowByte(v)), High(v))
    else if k == JGTE then Branch(s, Compare(k, s.acc, LowByte(v)), High(v))
    else if k == JLTE then Branch(s, Compare(k, s.acc, LowByte(v)), High(v))
    else Branch(s, true, v)
  }

  /** The instructions addressing the word at `pc + operand`; the final branch is IncrR. */
  function ProgramRelative(d: Dialect, s: State, k: Kind, v: int): (t: Transition)
    requires Fetchable(s) && IsProgramRelative(k)
    ensures Valid(StateOf(t)) && |StateOf(t).program| == |s.program|
    ensures t.Continue? ==> t.next.pc == s.pc + 1
    ensures t.Stop? ==> t.outcome.Undefined?
  {
    if k == LoadR then
      (match ProgramWord(s, v)
       case Ok(w) => Continue(Next(s).(acc := w))
       case Err(e) => Stop(Undefined(e), s))
    else if k == AddR then Relative(d, Add, s, v)
    else if k == SubR then Relative(d, Sub, s, v)
    else if k == MulR then Relative(d, Mul, s, v)
    else if k == DivR then Relative(d, Div, s, v)
    else if k == StoreR then StoreRelative(s, v)
    else IncrRelative(s, v)
  }

  /** Call, Ret, Push and Pop, which move the stack pointer; the final branch is Pop. */
  function Frame(d: Dialect, s: State, k: Kind, v: int): (t: Transition)
    requires Fetchable(s) && Fits56(v) && IsFrame(k)
    ensures Valid(StateOf(t)) && StateOf(t).program == s.program
    ensures t.Continue? && (k == Push || k == Pop) ==> t.next.pc == s.pc + 1
    ensures t.Stop? ==> t.outcome.Undefined?
  {
    if k == Call then CallStep(s, v)
    else if k == Ret then ReturnStep(d, s, v)
    else if k == Push then PushStep(s, v)
    else PopStep(d, s, v)
  }

  /** The instructions reading `stack[sp - operand]` into the accumulator; the final branch is
      DivS. */
  function StackRead(d: Dialect, s: State, k: Kind, v: int): (t: Transition)
    requires Fetchable(s) && IsStackRead(k)
    ensures t.Continue? ==> t.next == s.(pc := s.pc + 1, acc := t.next.acc)
    ensures t.Stop? ==> t.outcome.Undefined? && t.last == s
  {
    if k == LoadS then
      (match StackWord(s, s.sp - IntOf(d, v))
       case Ok(w) => Continue(Next(s).(acc := w))
       case Err(e) => Stop(Undefined(e), s))
    else if k == AddS then Local(d, Add, s, IntOf(d, v))
    else if k == SubS then Local(d, Sub, s, IntOf(d, v))
    else if k == MulS then Local(d, Mul, s, IntOf(d, v))
    else Local(d, Div, s, IntOf(d, v))
  }

  /** The instructions writing a stack cell; the final branch is StoreSB. */
  function StackWrite(d: Dialect, s: State, k: Kind, v: int): (t: Transition)
    requires Fetchable(s) && IsStackWrite(k)
    ensures Valid(StateOf(t)) && StateOf(t).program == s.program
    ensures t.Continue? ==> t.next.pc == s.pc + 1
    ensures t.Stop? ==> t.outcome.Undefined?
  {
    if k == StoreS then StoreLocal(s, IntOf(d, v))
    else if k == IncrS then IncrLocal(d, s, v)
    else if k == IdivS then DivLocal(d, s, IntOf(d, v))
    else StoreByte(d, s, v)
  }

  /** The instruction `k` with operand `v`. Only the syscalls stop with anything but undefined
      behaviour, and in Go only for an unknown syscall. */
  function Execute(d: Dialect, host: Host, s: State, k: Kind, v: int): (t: Transition)
    requires Fetchable(s) && Fits56(v) && Supported(d, k)
    ensures Valid(StateOf(t)) && |StateOf(t).program| == |s.program|
    ensures t.Stop? ==> t.outcome != Finished
    ensures t.Stop? && t.outcome.Failed? ==> (k == Sys || k == SysS) && (d == Go ==> t.outcome.reason.UnknownSyscall?)
    ensures t.Continue? && !ControlFlow(k) ==> t.next.pc == s.pc + 1
  {
    match FamilyOf(k)
    case Immediates => Immediate(d, s, k, v)
    case Jumps => Continue(Jump(s, k, v))
    case ProgramRelatives => ProgramRelative(d, s, k, v)
    case Syscalls => Syscall(d, host, s, k == SysS, v)
    case Frames => Frame(d, s, k, v)
    case StackReads => StackRead(d, s, k, v)
    case StackWrites => StackWrite(d, s, k, v)
  }

  /** One turn of the interpreter loop: stop at the end of the program, otherwise decode the word
      at pc and execute it. An opcode the enumeration does not list, or one this interpreter has
      no case for, stops the machine. */
  function Step(d: Dialect, isa: Numbering, host: Host, s: State): (r: Transition)
    requires Valid(s)
    ensures Valid(StateOf(r)) && |StateOf(r).program| == |s.program|
    ensures r.Stop? && r.outcome == Finished <==> s.pc >= |s.program|
  {
    if s.pc >= |s.program| then Stop(Finished, s)
    else if s.pc < 0 then Stop(Undefined(ProgramIndex(s.pc)), s)
    else
      var op := s.program[s.pc];
      match KindOf(isa, Opcode(op))
      case None => Stop(Failed(UnknownOpcode(Opcode(op))), s)
      case Some(k) =>
        if Supported(d, k) then Execute(d, host, s, k, Operand(op))
        else Stop(Failed(UnknownOpcode(Opcode(op))), s)
  }

  /** At most `fuel` steps; `Continue` means the budget ran out first. */
  function Run(d: Dialect, isa: Numbering, host: Host, s: State, fuel: nat): (r: Transition)
    requires Valid(s)
    ensures Valid(StateOf(r)) && |StateOf(r).program| == |s.program|
    decreases fuel
  {
    if fuel == 0 then Continue(s)
    else
      match Step(d, isa, host, s)
      case Continue(t) => Run(d, isa, host, t, fuel - 1)
      case Stop(o, t) => Stop(o, t)
  }

  /** The status the C process exits with: `exit(arg)` keeps the low byte, a fatal error exits 1,
      the end of the program returns 0 from `main`. Undefined behaviour has no defined status. */
  function CExitStatus(o: Outcome): (r: Option<Byte>)
    ensures r.None? <==> o.Undefined?
    ensures o.Failed? ==> r == Some(1)
  {
    match o
    case Exited(code) => Some(LowByte(code))
    case Finished => Some(0)
    case Failed(_) => Some(1)
    case Undefined(_) => None
  }

  const UNKNOWN_SYSCALL_ABORT_CODE: int := 99

  /** The code Go's `execute` returns: the Exit argument, 99 for an unknown syscall, -1 for an
      unknown instruction and 0 at the end of the program. A panic returns nothing. */
  function GoExitCode(o: Outcome): (r: Option<int>)
    ensures r.None? <==> o.Undefined? || (o.Failed? && !(o.reason.UnknownOpcode? || o.reason.UnknownSyscall?))
  {
    match o
    case Exited(code) => Some(code)
    case Finished => Some(0)
    case Failed(UnknownSyscall(_)) => Some(UNKNOWN_SYSCALL_ABORT_CODE)
    case Failed(UnknownOpcode(_)) => Some(-1)
    case Failed(_) => None
    case Undefined(_) => None
  }
}
