/** The assembler (`compile` and `emitCode`): each source line is tokenized, then turned into
    program words. Labels record the current pc, `var`/`param`/`return` manage a stack frame's
    variable slots, stack instructions may name those variables, and operands naming a label are
    resolved to pc-relative offsets once the whole source has been read. */
module Assembler {
  import opened Base
  import opened Int64
  import opened Codec
  import opened Isa
  import opened Text
  import opened Lexer
  import Enumeration
  import Str8
  import Syscalls
  import Loader

  /** `strconv.ParseInt(s, 0, 64)`: a number in Go syntax with base prefix, or None. Its syntax
      rules are outside the model; it is a parameter. */
  type IntParser = string -> Option<i64>

  /** A line of output before labels are resolved: the word so far, the label its operand names
      (or ""), whether it is raw data, and whether the label's offset goes at bit 16. */
  datatype AsmLine = AsmLine(op: i64, target: string, data: bool, is48: bool)

  datatype AsmError =
    | Lex(error: LexError)
    | Arity(instr: string, count: nat)
    | BadNumber(arg: string)
    | Str8Length(length: nat)
    | UnknownInstruction(instr: string)
    | UnknownStackVariable(name: string)
    | UnknownSyscall(name: string)
    | SyscallArgRange(value: int)
    | StackIndexRange(value: int)
    | ImmediateRange(value: int)
      /** `SetOperand` panics on a value outside 56 bits. */
    | OperandRange(value: int)
      /** `Set48BitsOperand` panics on an offset outside 48 bits. */
    | Operand48Range(value: int)
      /** `isAddressLabel` indexes the first byte of the argument and panics on an empty one. */
    | EmptyOperand
    | UnknownLabel(name: string)

  /** The assembler's registers: label addresses, the current frame's variable slots, the frame
      size `return` pops, and the lines emitted so far. The pc is the number of lines. */
  datatype Asm = Asm(labels: map<string, int>, vars: map<string, nat>, frame: nat, lines: seq<AsmLine>)

  const EMPTY: Asm := Asm(map[], map[], 0, [])

  const STACK_SIZE: int := 256

  /** The instructions the assembler names must exist and fit an opcode byte. */
  predicate Ready(isa: Numbering)
  {
    && |isa| < 256
    && Push in isa && Ret in isa && LoadS in isa && Sys in isa && SysS in isa
    && StoreSB in isa && IncrS in isa && IncrR in isa
  }

  /** `isAddressLabel`: the first byte of the argument, read as a Latin-1 character, is a letter. */
  predicate IsAddressLabel(s: string)
    requires |s| > 0
  {
    IsLatin1Letter(Utf8(s)[0])
  }

  function Number(parseInt: IntParser, s: string): (r: Result<i64, AsmError>)
    ensures r.Ok? <==> parseInt(s).Some?
    ensures r.Ok? ==> r.value == parseInt(s).value
  {
    match parseInt(s)
    case None => Err(BadNumber(s))
    case Some(v) => Ok(v)
  }

  /** `op.SetOperand(v)`, its panic as an error. */
  function WithOperand(op: i64, v: int): (r: Result<i64, AsmError>)
    ensures r.Ok? <==> Fits56(v)
    ensures r.Ok? ==> Opcode(r.value) == Opcode(op) && Operand(r.value) == v
  {
    match SetOperand(op, v)
    case Ok(w) => Ok(w)
    case Err(_) => Err(OperandRange(v))
  }

  /** What the lower-cased first word of a line is, as far as the two `switch`es on it care: one
      of the five directives, one of the five instructions taking two arguments, or anything else. */
  datatype Keyword = DataWord | Str8Word | VarWord | ParamWord | ReturnWord | PairWord | OtherWord

  function Classify(instr: string): Keyword
  {
    if instr == "data" then DataWord
    else if instr == "str8" then Str8Word
    else if instr == "var" then VarWord
    else if instr == "param" then ParamWord
    else if instr == "return" then ReturnWord
    else if instr in {"incrr", "incrs", "sys", "syss", "storesb"} then PairWord
    else OtherWord
  }

  predicate IsDirective(kw: Keyword)
  {
    kw in {DataWord, Str8Word, VarWord, ParamWord, ReturnWord}
  }

  /** The word of instruction `k` with operand `v`, or the error `SetOperand` raises. */
  function OpWord(isa: Numbering, k: Kind, v: int): (r: Result<i64, AsmError>)
    requires k in isa && |isa| < 256
    ensures r.Ok? <==> Fits56(v)
    ensures r.Ok? ==> KindOf(isa, Opcode(r.value)) == Some(k) && Operand(r.value) == v
  {
    WithOperand(SetOpcode(0, CodeOf(isa, k)), v)
  }

  /** The argument count each directive and instruction takes. */
  predicate ArityOk(kw: Keyword, narg: nat)
  {
    match kw
    case ReturnWord => narg == 0
    case VarWord | ParamWord => narg >= 1
    case PairWord => narg == 2
    case _ => narg == 1
  }

  /** How many operands an instruction takes: two for the packed forms, one for the rest. */
  function Operands(k: Kind): (n: nat)
    ensures n == 1 || n == 2
  {
    if k in {IncrR, IncrS, Sys, SysS, StoreSB} then 2 else 1
  }

  /** A mnemonic is never a directive, and the arity rule read on it is its operand count. */
  lemma MnemonicArity(k: Kind, narg: nat)
    ensures !IsDirective(Classify(Mnemonic(k)))
    ensures ArityOk(Classify(Mnemonic(k)), narg) <==> narg == Operands(k)
  {
    ClassifyMnemonic(k);
  }

  /** Each mnemonic is classified as a packed instruction or as a plain one, never as a
      directive; one lemma per instruction family follows. */
  lemma ClassifyMnemonic(k: Kind)
    ensures Classify(Mnemonic(k)) == if Operands(k) == 2 then PairWord else OtherWord
  {
    if k.LoadI? || k.AddI? || k.SubI? || k.MulI? || k.DivI? || k.ModI? || k.ShiftI? || k.AndI? {
      ClassifyImmediate(k);
    } else if k.JNZ? || k.JNEG? || k.JPOS? || k.JNE? || k.JEQ? || k.JLT? || k.JGT? || k.JGTE? ||
        k.JLTE? || k.JumpR? {
      ClassifyJump(k);
    } else if k.LoadR? || k.AddR? || k.SubR? || k.MulR? || k.DivR? || k.StoreR? || k.IncrR? {
      ClassifyProgramRelative(k);
    } else if k.Sys? || k.SysS? || k.Call? || k.Ret? || k.Push? || k.Pop? {
      ClassifySyscallOrFrame(k);
    } else if k.LoadS? || k.AddS? || k.SubS? || k.MulS? || k.DivS? {
      ClassifyStackRead(k);
    } else {
      ClassifyStackWrite(k);
    }
  }

  lemma ClassifyImmediate(k: Kind)
    requires k.LoadI? || k.AddI? || k.SubI? || k.MulI? || k.DivI? || k.ModI? || k.ShiftI? || k.AndI?
    ensures Classify(Mnemonic(k)) == if Operands(k) == 2 then PairWord else OtherWord
  {}

  lemma ClassifyJump(k: Kind)
    requires k.JNZ? || k.JNEG? || k.JPOS? || k.JNE? || k.JEQ? || k.JLT? || k.JGT? || k.JGTE? ||
             k.JLTE? || k.JumpR?
    ensures Classify(Mnemonic(k)) == if Operands(k) == 2 then PairWord else OtherWord
  {}

  lemma ClassifyProgramRelative(k: Kind)
    requires k.LoadR? || k.AddR? || k.SubR? || k.MulR? || k.DivR? || k.StoreR? || k.IncrR?
    ensures Classify(Mnemonic(k)) == if Operands(k) == 2 then PairWord else OtherWord
  {}

  lemma ClassifySyscallOrFrame(k: Kind)
    requires k.Sys? || k.SysS? || k.Call? || k.Ret? || k.Push? || k.Pop?
    ensures Classify(Mnemonic(k)) == if Operands(k) == 2 then PairWord else OtherWord
  {}

  lemma ClassifyStackRead(k: Kind)
    requires k.LoadS? || k.AddS? || k.SubS? || k.MulS? || k.DivS?
    ensures Classify(Mnemonic(k)) == if Operands(k) == 2 then PairWord else OtherWord
  {}

  lemma ClassifyStackWrite(k: Kind)
    requires k.StoreS? || k.IncrS? || k.IdivS? || k.StoreSB?
    ensures Classify(Mnemonic(k)) == if Operands(k) == 2 then PairWord else OtherWord
  {}

  /** The frame slots `start`, `start + 1`, ... given to `names` in order, over `m`; a repeated
      name keeps its last slot. */
  function Slots(m: map<string, nat>, names: seq<string>, start: nat): (r: map<string, nat>)
    decreases |names|
  {
    if |names| == 0 then m
    else Slots(m[names[0] := start], names[1..], start + 1)
  }

  function Append(st: Asm, line: AsmLine): (r: Asm)
    ensures r.lines == st.lines + [line] && r.labels == st.labels && r.vars == st.vars && r.frame == st.frame
  {
    st.(lines := st.lines + [line])
  }

  /** The data lines holding the words `ws`. */
  function DataLines(ws: seq<i64>): (r: seq<AsmLine>)
    ensures |r| == |ws|
    ensures forall i :: 0 <= i < |ws| ==> r[i] == AsmLine(ws[i], "", true, false)
  {
    seq(|ws|, i requires 0 <= i < |ws| => AsmLine(ws[i], "", true, false))
  }

  /** Argument `i` of a stack instruction: one that starts with a letter is replaced by its slot
      number in decimal when it names a frame variable, and is an error otherwise, except as the
      syscall name of SysS. An empty argument is an error. */
  function ResolveArg(vars: map<string, nat>, isSysS: bool, v: string, i: nat): Result<string, AsmError>
  {
    if |v| == 0 then Err(EmptyOperand)
    else if !IsAddressLabel(v) then Ok(v)
    else if v in vars then Ok(Decimal(vars[v]))
    else if !isSysS || i != 0 then Err(UnknownStackVariable(v))
    else Ok(v)
  }

  /** The arguments from `i` on resolved in place, left to right, stopping at the first error. */
  function ResolveVars(vars: map<string, nat>, isSysS: bool, args: seq<string>, i: nat): (r: Result<seq<string>, AsmError>)
    requires i <= |args|
    ensures r.Ok? ==> |r.value| == |args|
    decreases |args| - i
  {
    if i == |args| then Ok(args)
    else
      match ResolveArg(vars, isSysS, args[i], i)
      case Err(e) => Err(e)
      case Ok(a) => ResolveVars(vars, isSysS, args[i := a], i + 1)
  }

  /** `sysCalls`: the syscall name (any case) and its argument, a number of at most 48 bits or a
      label. A number is packed as `arg << 8 | id`; a label leaves the id alone in the operand and
      its offset is put at bit 16 later. */
  function SysLine(parseInt: IntParser, op: i64, name: string, arg: string): (r: Result<AsmLine, AsmError>)
    ensures r.Ok? ==> Opcode(r.value.op) == Opcode(op) && !r.value.data && r.value.is48
  {
    match Syscalls.FromString(Enumeration.Lower(name))
    case None => Err(UnknownSyscall(name))
    case Some(id) =>
      if |arg| == 0 then Err(EmptyOperand)
      else if IsAddressLabel(arg) then
        var w :- WithOperand(op, id);
        Ok(AsmLine(w, arg, false, true))
      else
        var v :- Number(parseInt, arg);
        if v > OPERAND48_MAX || v < OPERAND48_MIN then Err(SyscallArgRange(v))
        else
          var w :- WithOperand(op, v * 256 + id);
          Ok(AsmLine(w, "", false, true))
  }

  /** The two-field layout of StoreSB and IncrS: `low` as the operand, then `high` at bit 16; the
      VM reads back the low byte of the first and all of the second. */
  function Nested(op: i64, low: int, high: int): (w: i64)
    requires Fits56(low) && Fits48(high)
    ensures Opcode(w) == Opcode(op)
    ensures LowField(Operand(w)) == LowByte(low) && HighField(Operand(w)) == high
  {
    NestedFields(op, low, high);
    Set48BitsOperand(SetOperand(op, low).value, high).value
  }

  /** `StoreSB base, index`: both are stack positions. */
  function StoreLine(parseInt: IntParser, op: i64, args: seq<string>): (r: Result<AsmLine, AsmError>)
    requires |args| == 2
    ensures r.Ok? ==> Opcode(r.value.op) == Opcode(op) && !r.value.data && r.value.target == ""
  {
    var base :- Number(parseInt, args[0]);
    if base < 0 || base >= STACK_SIZE then Err(StackIndexRange(base))
    else
      var index :- Number(parseInt, args[1]);
      if index < 0 || index >= STACK_SIZE then Err(StackIndexRange(index))
      else Ok(AsmLine(Nested(op, index, base), "", false, true))
  }

  /** `IncrS delta, index`: a signed byte delta and a stack position. */
  function IncrSLine(parseInt: IntParser, op: i64, args: seq<string>): (r: Result<AsmLine, AsmError>)
    requires |args| == 2
    ensures r.Ok? ==> Opcode(r.value.op) == Opcode(op) && !r.value.data && r.value.target == ""
  {
    var delta :- Number(parseInt, args[0]);
    if delta < -128 || delta > 127 then Err(ImmediateRange(delta))
    else
      var index :- Number(parseInt, args[1]);
      if index < 0 || index >= STACK_SIZE then Err(StackIndexRange(index))
      else Ok(AsmLine(Nested(op, delta, index), "", false, true))
  }

  /** `IncrR delta, label`: a signed byte delta; the label's offset goes at bit 16. */
  function IncrRLine(parseInt: IntParser, op: i64, args: seq<string>): (r: Result<AsmLine, AsmError>)
    requires |args| == 2
    ensures r.Ok? ==> Opcode(r.value.op) == Opcode(op) && !r.value.data && r.value.target == args[1]
  {
    var delta :- Number(parseInt, args[0]);
    if delta < -128 || delta > 127 then Err(ImmediateRange(delta))
    else Ok(AsmLine(SetOperand(op, delta).value, args[1], false, true))
  }

  /** Every other instruction: a label, whose offset becomes the operand, or a number. */
  function PlainLine(parseInt: IntParser, op: i64, arg: string): (r: Result<AsmLine, AsmError>)
    ensures r.Ok? ==> Opcode(r.value.op) == Opcode(op) && !r.value.data && !r.value.is48
  {
    if |arg| == 0 then Err(EmptyOperand)
    else if IsAddressLabel(arg) then Ok(AsmLine(op, arg, false, false))
    else
      var v :- Number(parseInt, arg);
      var w :- WithOperand(op, v);
      Ok(AsmLine(w, "", false, false))
  }

  /** The line of instruction `code`, after stack variables are resolved. */
  function Encoding(isa: Numbering, parseInt: IntParser, vars: map<string, nat>, code: nat, args: seq<string>): (r: Result<AsmLine, AsmError>)
    requires Ready(isa) && 1 <= code <= |isa|
    requires |args| == Operands(isa[code - 1])
    ensures r.Ok? ==> Opcode(r.value.op) == code && !r.value.data
  {
    var k := isa[code - 1];
    var args :- if code >= CodeOf(isa, LoadS) then ResolveVars(vars, k == SysS, args, 0) else Ok(args);
    var op := SetOpcode(0, code);
    if k == Sys || k == SysS then SysLine(parseInt, op, args[0], args[1])
    else if k == StoreSB then StoreLine(parseInt, op, args)
    else if k == IncrS then IncrSLine(parseInt, op, args)
    else if k == IncrR then IncrRLine(parseInt, op, args)
    else PlainLine(parseInt, op, args[0])
  }

  /** `data v`: the full 64-bit word `v`, with no opcode. */
  function DataDirective(parseInt: IntParser, st: Asm, arg: string): (r: Result<Asm, AsmError>)
    ensures r.Ok? <==> parseInt(arg).Some?
    ensures r.Ok? ==> r.value == Append(st, AsmLine(parseInt(arg).value, "", true, false))
  {
    var v :- Number(parseInt, arg);
    Ok(Append(st, AsmLine(v, "", true, false)))
  }

  /** `str8 text`: the length-prefixed bytes of `text` as data words. */
  function Str8Directive(st: Asm, text: string): (r: Result<Asm, AsmError>)
    ensures r.Ok? <==> 1 <= |Utf8(text)| <= 255
    ensures r.Ok? ==> r.value.vars == st.vars && r.value.labels == st.labels && r.value.frame == st.frame
  {
    var bytes := Utf8(text);
    if |bytes| == 0 || |bytes| > 255 then Err(Str8Length(|bytes|))
    else Ok(st.(lines := st.lines + DataLines(Str8.AsmSerializeStr8(bytes).value)))
  }

  /** `var a b ...`: a new frame whose slots are numbered from 0, opened with `Push`. */
  function VarDirective(isa: Numbering, st: Asm, names: seq<string>): (r: Result<Asm, AsmError>)
    requires Ready(isa) && |names| >= 1
    ensures r.Ok? <==> Fits56(|names| - 1)
    ensures r.Ok? ==> r.value.labels == st.labels && r.value.frame == |names|
  {
    var w :- OpWord(isa, Push, |names| - 1);
    Ok(st.(vars := Slots(map[], names, 0), frame := |names|, lines := st.lines + [AsmLine(w, "", false, false)]))
  }

  /** `param x ...`: names for the slots above the frame's return address; emits nothing. */
  function ParamDirective(st: Asm, names: seq<string>): (r: Asm)
    ensures r.lines == st.lines && r.labels == st.labels && r.frame == st.frame
  {
    st.(vars := Slots(st.vars, names, st.frame + 1))
  }

  /** `return`: `Ret` with the frame size of the last `var`. */
  function ReturnDirective(isa: Numbering, st: Asm): (r: Result<Asm, AsmError>)
    requires Ready(isa)
    ensures r.Ok? <==> Fits56(st.frame)
    ensures r.Ok? ==> r.value.vars == st.vars && r.value.labels == st.labels && r.value.frame == st.frame
  {
    var w :- OpWord(isa, Ret, st.frame);
    Ok(Append(st, AsmLine(w, "", false, false)))
  }

  function Directive(isa: Numbering, parseInt: IntParser, st: Asm, kw: Keyword, args: seq<string>): (r: Result<Asm, AsmError>)
    requires Ready(isa) && IsDirective(kw) && ArityOk(kw, |args|)
  {
    match kw
    case DataWord => DataDirective(parseInt, st, args[0])
    case Str8Word => Str8Directive(st, args[0])
    case VarWord => VarDirective(isa, st, args)
    case ParamWord => Ok(ParamDirective(st, args))
    case ReturnWord => ReturnDirective(isa, st)
  }

  /** A line naming an instruction, with the argument count its mnemonic takes: one more line. */
  function InstructionLine(isa: Numbering, parseInt: IntParser, st: Asm, instr: string, args: seq<string>): (r: Result<Asm, AsmError>)
    requires Ready(isa) && ArityOk(Classify(instr), |args|)
    ensures r.Ok? ==> r.value.vars == st.vars && r.value.labels == st.labels && r.value.frame == st.frame
    ensures r.Ok? ==> |r.value.lines| == |st.lines| + 1 && r.value.lines[..|st.lines|] == st.lines
  {
    match FromString(isa, instr)
    case None => Err(UnknownInstruction(instr))
    case Some(code) =>
      MnemonicArity(isa[code - 1], |args|);
      var line :- Encoding(isa, parseInt, st.vars, code, args);
      Ok(Append(st, line))
  }

  /** One non-empty line of tokens: a label definition, a directive or an instruction. */
  function CompileLine(isa: Numbering, parseInt: IntParser, st: Asm, first: string, args: seq<string>): (r: Result<Asm, AsmError>)
    requires Ready(isa)
  {
    if |first| > 0 && first[|first| - 1] == ':' then
      Ok(st.(labels := st.labels[first[..|first| - 1] := |st.lines|]))
    else
      var instr := Enumeration.Lower(first);
      var kw := Classify(instr);
      if !ArityOk(kw, |args|) then Err(Arity(instr, |args|))
      else if IsDirective(kw) then Directive(isa, parseInt, st, kw, args)
      else InstructionLine(isa, parseInt, st, instr, args)
  }

  /** The compile loop: tokenize a line, skip it if empty, compile it, go on with the rest. */
  function Assemble(isa: Numbering, unquote: Unquoter, parseInt: IntParser, src: string, st: Asm): (r: Result<Asm, AsmError>)
    requires Ready(isa)
    decreases |src|
  {
    match Parse(unquote, src)
    case Err(e) => Err(Lex(e))
    case Ok(EndOfInput) => Ok(st)
    case Ok(Fields(tokens, rest)) =>
      if |tokens| == 0 then Assemble(isa, unquote, parseInt, rest, st)
      else
        var next :- CompileLine(isa, parseInt, st, tokens[0], tokens[1..]);
        Assemble(isa, unquote, parseInt, rest, next)
  }

  /** The word line `pc` becomes once labels are known. */
  function Resolve(line: AsmLine, pc: int, labels: map<string, int>): (r: Result<i64, AsmError>)
    ensures line.data || line.target == "" ==> r == Ok(line.op)
  {
    if line.data || line.target == "" then Ok(line.op)
    else if line.target !in labels then Err(UnknownLabel(line.target))
    else
      var offset := labels[line.target] - pc;
      if line.is48 then
        match Set48BitsOperand(line.op, offset)
        case Ok(w) => Ok(w)
        case Err(_) => Err(Operand48Range(offset))
      else WithOperand(line.op, offset)
  }

  /** `emitCode`: resolve every line, in order; the first failure stops it. */
  function EmitCode(lines: seq<AsmLine>, labels: map<string, int>, from: nat): (r: Result<seq<i64>, AsmError>)
    requires from <= |lines|
    ensures r.Ok? ==> |r.value| == |lines| - from
    decreases |lines| - from
  {
    if from == |lines| then Ok([])
    else
      var w :- Resolve(lines[from], from, labels);
      var ws :- EmitCode(lines, labels, from + 1);
      Ok([w] + ws)
  }

  /** `Compile` on one source: the header, then the program words. */
  function Compile(isa: Numbering, unquote: Unquoter, parseInt: IntParser, src: string): (r: Result<seq<Byte>, AsmError>)
    requires Ready(isa)
  {
    var st :- Assemble(isa, unquote, parseInt, src, EMPTY);
    var program :- EmitCode(st.lines, st.labels, 0);
    Ok(Loader.Image(program))
  }
}
