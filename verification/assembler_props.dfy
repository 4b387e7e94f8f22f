/** Properties of the assembler: what each directive does to the frame and label registers, how
    each instruction's operands are laid out for the interpreters' decoders, how labels resolve to
    pc-relative offsets, and that the file written loads back as the program. */
module AssemblerProps {
  import opened Base
  import opened Int64
  import opened Codec
  import opened Isa
  import opened Text
  import opened Assembler
  import Enumeration
  import Str8
  import Syscalls
  import Loader
  import Effects

  // Frames: `var`, `param` and `return`.

  /** The five directive names. */
  lemma Keywords()
    ensures Classify("data") == DataWord && Classify("str8") == Str8Word && Classify("var") == VarWord
    ensures Classify("param") == ParamWord && Classify("return") == ReturnWord
    ensures Classify("sys") == PairWord
  {
  }

  /** A directive line, written in lower case, is compiled by `Directive`. */
  lemma DirectiveLine(isa: Numbering, parseInt: IntParser, st: Asm, instr: string, args: seq<string>)
    requires Ready(isa) && Enumeration.IsLowerCase(instr) && |instr| > 0 && instr[|instr| - 1] != ':'
    requires IsDirective(Classify(instr)) && ArityOk(Classify(instr), |args|)
    ensures CompileLine(isa, parseInt, st, instr, args) == Directive(isa, parseInt, st, Classify(instr), args)
  {
    Enumeration.LowerIsLowerCase(instr);
  }

  /** The names defined are the old ones and the new ones. */
  lemma {:induction false} SlotsKeys(m: map<string, nat>, names: seq<string>, start: nat)
    ensures forall x :: x in Slots(m, names, start) <==> x in m || x in names
    decreases |names|
  {
    if |names| > 0 {
      SlotsKeys(m[names[0] := start], names[1..], start + 1);
      assert forall x :: x in names <==> x == names[0] || x in names[1..];
    }
  }

  /** Distinct names get consecutive slots from `start`; every other name keeps its slot. */
  lemma {:induction false} SlotsLookup(m: map<string, nat>, names: seq<string>, start: nat)
    requires Enumeration.Distinct(names)
    ensures forall i :: 0 <= i < |names| ==> names[i] in Slots(m, names, start) && Slots(m, names, start)[names[i]] == start + i
    ensures forall x :: x in m && x !in names ==> x in Slots(m, names, start) && Slots(m, names, start)[x] == m[x]
    decreases |names|
  {
    SlotsKeys(m, names, start);
    if |names| > 0 {
      var tail := names[1..];
      assert Enumeration.Distinct(tail) by {
        forall i, j | 0 <= i < j < |tail| ensures tail[i] != tail[j] {
          assert tail[i] == names[i + 1] && tail[j] == names[j + 1];
        }
      }
      assert names[0] !in tail by {
        forall j | 0 <= j < |tail| ensures tail[j] != names[0] {
          assert tail[j] == names[j + 1];
        }
      }
      var m1 := m[names[0] := start];
      SlotsLookup(m1, tail, start + 1);
      forall i | 0 <= i < |names| ensures names[i] in Slots(m, names, start) && Slots(m, names, start)[names[i]] == start + i {
        if i > 0 {
          assert names[i] == tail[i - 1];
        }
      }
      forall x | x in m && x !in names ensures x in Slots(m, names, start) && Slots(m, names, start)[x] == m[x] {
        assert x != names[0];
        assert x !in tail;
      }
    }
  }

  /** `var a b c` opens a frame of three slots numbered from 0, forgetting every earlier variable,
      and emits `Push 2`. */
  lemma VarLine(isa: Numbering, parseInt: IntParser, st: Asm, names: seq<string>)
    requires Ready(isa) && |names| >= 1 && Fits56(|names| - 1) && Enumeration.Distinct(names)
    ensures var r := CompileLine(isa, parseInt, st, "var", names);
            && r.Ok?
            && r.value.frame == |names| && r.value.labels == st.labels
            && (forall x :: x in r.value.vars <==> x in names)
            && (forall i :: 0 <= i < |names| ==> names[i] in r.value.vars && r.value.vars[names[i]] == i)
            && |r.value.lines| == |st.lines| + 1 && r.value.lines[..|st.lines|] == st.lines
            && var line := r.value.lines[|st.lines|];
            && KindOf(isa, Opcode(line.op)) == Some(Push) && Operand(line.op) == |names| - 1
            && !line.data && line.target == ""
  {
    Keywords();
    DirectiveLine(isa, parseInt, st, "var", names);
    SlotsLookup(map[], names, 0);
    SlotsKeys(map[], names, 0);
    var r := Directive(isa, parseInt, st, VarWord, names);
    assert r.Ok?;
    assert r.value.lines == st.lines + [r.value.lines[|st.lines|]];
  }

  /** `param x y` names the slots just above the frame's return address, `frame + 1` onwards; it
      emits nothing and every other variable keeps its slot. */
  lemma ParamLine(isa: Numbering, parseInt: IntParser, st: Asm, names: seq<string>)
    requires Ready(isa) && |names| >= 1 && Enumeration.Distinct(names)
    ensures var r := CompileLine(isa, parseInt, st, "param", names);
            && r.Ok?
            && r.value.lines == st.lines && r.value.labels == st.labels && r.value.frame == st.frame
            && (forall i :: 0 <= i < |names| ==> names[i] in r.value.vars && r.value.vars[names[i]] == st.frame + 1 + i)
            && (forall x :: x in st.vars && x !in names ==> x in r.value.vars && r.value.vars[x] == st.vars[x])
  {
    Keywords();
    DirectiveLine(isa, parseInt, st, "param", names);
    SlotsLookup(st.vars, names, st.frame + 1);
  }

  /** `return` emits `Ret frame`, the slot count of the last `var`, and may appear more than once. */
  lemma ReturnLine(isa: Numbering, parseInt: IntParser, st: Asm)
    requires Ready(isa) && Fits56(st.frame)
    ensures var r := CompileLine(isa, parseInt, st, "return", []);
            && r.Ok?
            && r.value.vars == st.vars && r.value.frame == st.frame && r.value.labels == st.labels
            && r.value.lines == st.lines + [r.value.lines[|st.lines|]]
            && var line := r.value.lines[|st.lines|];
            && KindOf(isa, Opcode(line.op)) == Some(Ret) && Operand(line.op) == st.frame
            && !line.data && line.target == ""
  {
    Keywords();
    DirectiveLine(isa, parseInt, st, "return", []);
  }

  /** The parts of a repetition-free list are repetition-free and share nothing. */
  lemma DistinctParts(a: seq<string>, b: seq<string>)
    requires Enumeration.Distinct(a + b)
    ensures Enumeration.Distinct(a) && Enumeration.Distinct(b)
    ensures forall i :: 0 <= i < |a| ==> a[i] !in b
  {
    var all := a + b;
    forall i, j | 0 <= i < j < |a| ensures a[i] != a[j] {
      assert all[i] == a[i] && all[j] == a[j];
    }
    forall i, j | 0 <= i < j < |b| ensures b[i] != b[j] {
      assert all[|a| + i] == b[i] && all[|a| + j] == b[j];
    }
    forall i | 0 <= i < |a| ensures a[i] !in b {
      forall j | 0 <= j < |b| ensures b[j] != a[i] {
        assert all[i] == a[i] && all[|a| + j] == b[j];
      }
    }
  }

  /** A frame: after `var` and `param`, `return` pops the whole frame, and the variables name
      their slots. */
  lemma FrameLines(isa: Numbering, st: Asm, locals: seq<string>, params: seq<string>)
    requires Ready(isa) && |locals| >= 1 && Fits56(|locals|) && |params| >= 1
    requires Enumeration.Distinct(locals + params)
    ensures var r1 := VarDirective(isa, st, locals);
            && r1.Ok?
            && var r3 := ReturnDirective(isa, ParamDirective(r1.value, params));
            && r3.Ok?
            && (forall i :: 0 <= i < |locals| ==> locals[i] in r3.value.vars && r3.value.vars[locals[i]] == i)
            && (forall i :: 0 <= i < |params| ==> params[i] in r3.value.vars && r3.value.vars[params[i]] == |locals| + 1 + i)
            && |r3.value.lines| > 0 && Operand(r3.value.lines[|r3.value.lines| - 1].op) == |locals|
  {
    DistinctParts(locals, params);
    var s1 := VarDirective(isa, st, locals).value;
    assert s1.vars == Slots(map[], locals, 0) && s1.frame == |locals|;
    SlotsLookup(map[], locals, 0);
    var s2 := ParamDirective(s1, params);
    assert s2.vars == Slots(s1.vars, params, |locals| + 1) && s2.frame == |locals|;
    SlotsLookup(s1.vars, params, |locals| + 1);
    var s3 := ReturnDirective(isa, s2).value;
    assert s3.vars == s2.vars;
    assert s3.lines == s2.lines + [s3.lines[|s2.lines|]];
  }

  // Labels and arity.

  /** `name:` records the current pc under `name` and emits nothing; the rest of the line is
      ignored. */
  lemma LabelLine(isa: Numbering, parseInt: IntParser, st: Asm, name: string, rest: seq<string>)
    requires Ready(isa)
    ensures var r := CompileLine(isa, parseInt, st, name + ":", rest);
            && r.Ok?
            && r.value.labels == st.labels[name := |st.lines|]
            && r.value.lines == st.lines && r.value.vars == st.vars && r.value.frame == st.frame
  {
    var first := name + ":";
    assert first[..|first| - 1] == name;
  }

  /** A line with the wrong number of arguments for its instruction or directive is rejected
      before anything else is looked at. */
  lemma ArityError(isa: Numbering, parseInt: IntParser, st: Asm, first: string, args: seq<string>)
    requires Ready(isa)
    requires |first| > 0 && first[|first| - 1] != ':'
    requires !ArityOk(Classify(Enumeration.Lower(first)), |args|)
    ensures CompileLine(isa, parseInt, st, first, args) == Err(Arity(Enumeration.Lower(first), |args|))
  {
  }

  /** So `return` takes nothing... */
  lemma ReturnTakesNothing(isa: Numbering, parseInt: IntParser, st: Asm)
    requires Ready(isa)
    ensures CompileLine(isa, parseInt, st, "return", ["x"]) == Err(Arity("return", 1))
  {
    Keywords();
    Enumeration.LowerIsLowerCase("return");
    ArityError(isa, parseInt, st, "return", ["x"]);
  }

  /** ... and `var` at least one name. */
  lemma VarNeedsNames(isa: Numbering, parseInt: IntParser, st: Asm)
    requires Ready(isa)
    ensures CompileLine(isa, parseInt, st, "var", []) == Err(Arity("var", 0))
  {
    Keywords();
    Enumeration.LowerIsLowerCase("var");
    ArityError(isa, parseInt, st, "var", []);
  }

  // Operand layouts.

  /** `sysCalls` with a number: the syscall is accepted under any case, the argument must fit in 48
      bits, and the interpreters find the id in the operand's low byte and the argument above it. */
  lemma SysNumber(parseInt: IntParser, op: i64, name: string, arg: string, v: int)
    requires |arg| > 0 && !IsAddressLabel(arg) && parseInt(arg) == Some(v)
    requires Syscalls.FromString(Enumeration.Lower(name)).Some?
    ensures var r := SysLine(parseInt, op, name, arg);
            && (r.Ok? <==> Fits48(v))
            && (r.Err? ==> r.error == SyscallArgRange(v))
            && (r.Ok? ==> && Opcode(r.value.op) == Opcode(op) && r.value.target == ""
                          && LowField(Operand(r.value.op)) == Syscalls.FromString(Enumeration.Lower(name)).value
                          && HighField(Operand(r.value.op)) == v)
  {
    var id := Syscalls.FromString(Enumeration.Lower(name)).value;
    assert Fits48(v) ==> Fits56(v * 256 + id);
    assert LowByte(v * 256 + id) == id && High(v * 256 + id) == v;
  }

  /** `sysCalls` with a label: the id alone goes in now; once resolved, the label's offset sits
      above it. */
  lemma SysLabel(parseInt: IntParser, op: i64, name: string, target: string, labels: map<string, int>, pc: int)
    requires |target| > 0 && IsAddressLabel(target)
    requires Syscalls.FromString(Enumeration.Lower(name)).Some?
    requires target in labels && Fits48(labels[target] - pc)
    ensures var r := SysLine(parseInt, op, name, target);
            && r.Ok? && r.value.target == target
            && var w := Resolve(r.value, pc, labels);
            && w.Ok? && Opcode(w.value) == Opcode(op)
            && LowField(Operand(w.value)) == Syscalls.FromString(Enumeration.Lower(name)).value
            && HighField(Operand(w.value)) == labels[target] - pc
  {
    var id := Syscalls.FromString(Enumeration.Lower(name)).value;
    var line := SysLine(parseInt, op, name, target).value;
    Set48Fields(line.op, labels[target] - pc);
    assert LowField(Operand(line.op)) == LowByte(id);
  }

  /** A syscall name outside the table is an error, whatever its argument. */
  lemma SysUnknown(parseInt: IntParser, op: i64, name: string, arg: string)
    requires Syscalls.FromString(Enumeration.Lower(name)).None?
    ensures SysLine(parseInt, op, name, arg) == Err(UnknownSyscall(name))
  {
  }

  /** `StoreSB base, index`: both must be stack positions; the interpreters read the index from the
      operand's low byte and the base from above it. */
  lemma StoreFields(parseInt: IntParser, op: i64, args: seq<string>, base: int, index: int)
    requires |args| == 2 && parseInt(args[0]) == Some(base) && parseInt(args[1]) == Some(index)
    ensures var r := StoreLine(parseInt, op, args);
            && (r.Ok? <==> 0 <= base < STACK_SIZE && 0 <= index < STACK_SIZE)
            && (r.Ok? ==> HighField(Operand(r.value.op)) == base && LowField(Operand(r.value.op)) == index)
  {
    if 0 <= base < STACK_SIZE && 0 <= index < STACK_SIZE {
      assert LowByte(index) == index;
    }
  }

  /** `IncrS delta, index`: a signed byte and a stack position; the interpreters read the delta as
      the operand's low byte taken as signed, and the index from above it. */
  lemma IncrSFields(parseInt: IntParser, op: i64, args: seq<string>, delta: int, index: int)
    requires |args| == 2 && parseInt(args[0]) == Some(delta) && parseInt(args[1]) == Some(index)
    ensures var r := IncrSLine(parseInt, op, args);
            && (r.Ok? <==> -128 <= delta <= 127 && 0 <= index < STACK_SIZE)
            && (r.Ok? ==> Int8(LowField(Operand(r.value.op))) == delta && HighField(Operand(r.value.op)) == index)
  {
  }

  /** `IncrR delta, label`: after label resolution the delta is the operand's signed low byte and
      the label's pc-relative offset sits above it, where the interpreters look for both. */
  lemma IncrRFields(parseInt: IntParser, op: i64, args: seq<string>, delta: int, labels: map<string, int>, pc: int)
    requires |args| == 2 && parseInt(args[0]) == Some(delta) && -128 <= delta <= 127
    requires args[1] != "" && args[1] in labels && Fits48(labels[args[1]] - pc)
    ensures var r := IncrRLine(parseInt, op, args);
            && r.Ok?
            && var w := Resolve(r.value, pc, labels);
            && w.Ok? && Opcode(w.value) == Opcode(op)
            && Int8(LowField(Operand(w.value))) == delta
            && HighField(Operand(w.value)) == labels[args[1]] - pc
  {
    var line := IncrRLine(parseInt, op, args).value;
    Set48Fields(line.op, labels[args[1]] - pc);
  }

  /** Every other instruction: a number is the whole operand (if it fits in 56 bits); a label
      becomes its offset from the instruction. */
  lemma PlainOperand(parseInt: IntParser, op: i64, arg: string, labels: map<string, int>, pc: int)
    requires |arg| > 0
    ensures var r := PlainLine(parseInt, op, arg);
            && (!IsAddressLabel(arg) && parseInt(arg).Some? ==>
                  (r.Ok? <==> Fits56(parseInt(arg).value))
                  && (r.Ok? ==> Operand(r.value.op) == parseInt(arg).value && r.value.target == ""))
            && (!IsAddressLabel(arg) && parseInt(arg).None? ==> r == Err(BadNumber(arg)))
            && (IsAddressLabel(arg) && arg in labels && Fits56(labels[arg] - pc) ==>
                  r.Ok? && Resolve(r.value, pc, labels).Ok?
                  && Operand(Resolve(r.value, pc, labels).value) == labels[arg] - pc)
  {
  }

  // Stack variables.

  /** An argument that names a frame variable. */
  predicate IsVarRef(vars: map<string, nat>, a: string)
  {
    |a| > 0 && IsAddressLabel(a) && a in vars
  }

  /** Argument `j`, reading `arg`, passes variable resolution: it is not empty, and if it starts
      with a letter it names a variable or is the syscall name of SysS. */
  predicate Resolvable(vars: map<string, nat>, isSysS: bool, arg: string, j: int)
  {
    |arg| > 0 && (IsAddressLabel(arg) && arg !in vars ==> isSysS && j == 0)
  }

  /** One argument resolves exactly when it passes, to its slot number when it names a variable
      and to itself otherwise. */
  lemma ResolveArgMeaning(vars: map<string, nat>, isSysS: bool, v: string, i: nat)
    ensures ResolveArg(vars, isSysS, v, i).Ok? <==> Resolvable(vars, isSysS, v, i)
    ensures ResolveArg(vars, isSysS, v, i).Ok? ==>
            ResolveArg(vars, isSysS, v, i).value == if IsVarRef(vars, v) then Decimal(vars[v]) else v
  {}

  /** Variable resolution fails exactly when an argument is empty, or starts with a letter without
      naming a variable and is not the syscall name of SysS. */
  lemma {:induction false} ResolveVarsOk(vars: map<string, nat>, isSysS: bool, args: seq<string>, i: nat)
    requires i <= |args|
    ensures ResolveVars(vars, isSysS, args, i).Ok? <==>
            forall j :: i <= j < |args| ==> Resolvable(vars, isSysS, args[j], j)
    decreases |args| - i
  {
    if i < |args| {
      ResolveArgMeaning(vars, isSysS, args[i], i);
      match ResolveArg(vars, isSysS, args[i], i)
      case Err(_) =>
      case Ok(a) =>
        var next := args[i := a];
        ResolveVarsOk(vars, isSysS, next, i + 1);
        assert forall j :: i < j < |args| ==> next[j] == args[j];
    }
  }

  /** Variable resolution rewrites exactly the arguments that name frame variables, each to its
      slot number in decimal. */
  lemma {:induction false} ResolveVarsAt(vars: map<string, nat>, isSysS: bool, args: seq<string>, i: nat, j: nat)
    requires i <= |args| && j < |args| && ResolveVars(vars, isSysS, args, i).Ok?
    ensures ResolveVars(vars, isSysS, args, i).value[j]
            == if i <= j && IsVarRef(vars, args[j]) then Decimal(vars[args[j]]) else args[j]
    decreases |args| - i
  {
    if i < |args| {
      ResolveArgMeaning(vars, isSysS, args[i], i);
      var a := ResolveArg(vars, isSysS, args[i], i).value;
      var next := args[i := a];
      ResolveVarsAt(vars, isSysS, next, i + 1, j);
      if j != i {
        assert next[j] == args[j];
      }
    }
  }

  /** Both halves of variable resolution's meaning. */
  lemma ResolveVarsEach(vars: map<string, nat>, isSysS: bool, args: seq<string>, i: nat)
    requires i <= |args|
    ensures var r := ResolveVars(vars, isSysS, args, i);
            && (r.Ok? <==> forall j :: i <= j < |args| ==> Resolvable(vars, isSysS, args[j], j))
            && (r.Ok? ==> forall j :: 0 <= j < |args| ==>
                  r.value[j] == if i <= j && IsVarRef(vars, args[j]) then Decimal(vars[args[j]]) else args[j])
  {
    ResolveVarsOk(vars, isSysS, args, i);
    if ResolveVars(vars, isSysS, args, i).Ok? {
      forall j | 0 <= j < |args|
        ensures ResolveVars(vars, isSysS, args, i).value[j]
                == if i <= j && IsVarRef(vars, args[j]) then Decimal(vars[args[j]]) else args[j]
      {
        ResolveVarsAt(vars, isSysS, args, i, j);
      }
    }
  }

  /** A numeral is never taken for a label. */
  lemma DecimalIsNotLabel(n: nat)
    ensures |Decimal(n)| > 0 && !IsAddressLabel(Decimal(n))
  {
    DecimalLeadingDigit(n);
  }

  /** A mnemonic is not empty and does not end like a label definition. */
  lemma MnemonicEnd(k: Kind)
    ensures |Mnemonic(k)| > 0 && Mnemonic(k)[|Mnemonic(k)| - 1] != ':'
  {
    KeyInverse(k);
    KeyShape(Key(Mnemonic(k)));
  }

  /** Every key of the mnemonic table is at least three letters long and ends in a letter. */
  lemma KeyShape(key: (int, char, char, char))
    requires KindOfKey(key).Some?
    ensures key.0 >= 3 && 'a' <= key.3 <= 'z'
  {
  }

  /** A mnemonic is its own lower-case form. */
  lemma MnemonicLower(k: Kind)
    ensures Enumeration.Lower(Mnemonic(k)) == Mnemonic(k)
  {
    MnemonicIsLowerName(k);
    Enumeration.LowerIsLowerCase(Name(k));
    Enumeration.LowerIsLowerCase(Mnemonic(k));
  }

  /** A word the instruction table finds is neither a label definition nor a directive, and
      takes exactly the instruction's operands. */
  lemma TableWord(isa: Numbering, instr: string, code: nat, n: nat)
    requires FromString(isa, instr) == Some(code) && n == Operands(isa[code - 1])
    ensures |instr| > 0 && instr[|instr| - 1] != ':'
    ensures !IsDirective(Classify(instr)) && ArityOk(Classify(instr), n)
  {
    var k := isa[code - 1];
    MnemonicEnd(k);
    MnemonicArity(k, n);
  }

  /** Lower-casing leaves a colon, and only a colon, as a colon. */
  lemma LowerColon(s: string)
    requires |s| > 0
    ensures Enumeration.Lower(s)[|s| - 1] == ':' <==> s[|s| - 1] == ':'
  {
    assert Enumeration.Lower(s)[|s| - 1] == Enumeration.LowerChar(s[|s| - 1]);
  }

  /** A word whose lower-case form names instruction `code` is neither a label definition nor a
      directive, and takes exactly the instruction's operands. */
  lemma InstructionWord(isa: Numbering, first: string, code: nat, n: nat)
    requires FromString(isa, Enumeration.Lower(first)) == Some(code) && n == Operands(isa[code - 1])
    ensures |first| > 0 && first[|first| - 1] != ':'
    ensures !IsDirective(Classify(Enumeration.Lower(first))) && ArityOk(Classify(Enumeration.Lower(first)), n)
  {
    TableWord(isa, Enumeration.Lower(first), code, n);
    LowerColon(first);
  }

  /** A line whose first word is neither a label definition nor a directive, with an acceptable
      number of arguments, is an instruction line. */
  lemma InstructionDispatch(isa: Numbering, parseInt: IntParser, st: Asm, first: string, args: seq<string>)
    requires Ready(isa) && |first| > 0 && first[|first| - 1] != ':'
    requires !IsDirective(Classify(Enumeration.Lower(first))) && ArityOk(Classify(Enumeration.Lower(first)), |args|)
    ensures CompileLine(isa, parseInt, st, first, args) == InstructionLine(isa, parseInt, st, Enumeration.Lower(first), args)
  {
  }

  /** A line whose first word names an instruction, in any case, with the right number of
      arguments, is an instruction line. */
  lemma CompiledInstruction(isa: Numbering, parseInt: IntParser, st: Asm, first: string, args: seq<string>, code: nat)
    requires Ready(isa) && FromString(isa, Enumeration.Lower(first)) == Some(code)
    requires |args| == Operands(isa[code - 1])
    ensures ArityOk(Classify(Enumeration.Lower(first)), |args|)
    ensures CompileLine(isa, parseInt, st, first, args) == InstructionLine(isa, parseInt, st, Enumeration.Lower(first), args)
  {
    InstructionWord(isa, first, code, |args|);
    InstructionDispatch(isa, parseInt, st, first, args);
  }

  /** A one-operand stack instruction is encoded from its resolved argument. */
  lemma StackPlain(isa: Numbering, parseInt: IntParser, vars: map<string, nat>, code: nat, args: seq<string>,
                   resolved: seq<string>)
    requires Ready(isa) && 1 <= code <= |isa| && Operands(isa[code - 1]) == 1
    requires code >= CodeOf(isa, LoadS) && |args| == 1
    requires ResolveVars(vars, false, args, 0) == Ok(resolved) && |resolved| == 1
    ensures Encoding(isa, parseInt, vars, code, args) == PlainLine(parseInt, SetOpcode(0, code), resolved[0])
  {
    var k := isa[code - 1];
    assert k != Sys && k != SysS && k != StoreSB && k != IncrS && k != IncrR;
  }

  /** A numeric argument that fits becomes the operand, next to the opcode already set. */
  lemma PlainNumber(parseInt: IntParser, op: i64, arg: string, v: i64)
    requires |arg| > 0 && !IsAddressLabel(arg) && parseInt(arg) == Some(v) && Fits56(v)
    ensures var r := PlainLine(parseInt, op, arg);
            && r.Ok? && r.value.op == WithOperand(op, v).value && r.value.target == "" && !r.value.data
  {
  }

  /** The encoding of a stack instruction whose argument names a frame variable. */
  lemma StackEncoding(isa: Numbering, parseInt: IntParser, vars: map<string, nat>, code: nat, name: string)
    requires Ready(isa) && 1 <= code <= |isa| && Operands(isa[code - 1]) == 1
    requires code >= CodeOf(isa, LoadS)
    requires IsVarRef(vars, name) && Fits56(vars[name])
    requires parseInt(Decimal(vars[name])) == Some(vars[name])
    ensures var r := Encoding(isa, parseInt, vars, code, [name]);
            && r.Ok? && Opcode(r.value.op) == code && Operand(r.value.op) == vars[name]
            && r.value.target == "" && !r.value.data
  {
    ResolveVarsEach(vars, false, [name], 0);
    var slot := Decimal(vars[name]);
    var args := [name];
    assert args[0] == name;
    var r := ResolveVars(vars, false, args, 0);
    assert r.Ok?;
    assert r.value[0] == slot;
    assert r.value == [slot];
    StackPlain(isa, parseInt, vars, code, [name], [slot]);
    DecimalIsNotLabel(vars[name]);
    PlainNumber(parseInt, SetOpcode(0, code), slot, vars[name]);
  }

  /** An instruction line appends the encoding of the instruction its mnemonic names. */
  lemma InstructionAppends(isa: Numbering, parseInt: IntParser, st: Asm, instr: string, args: seq<string>,
                           code: nat, line: AsmLine)
    requires Ready(isa) && ArityOk(Classify(instr), |args|)
    requires FromString(isa, instr) == Some(code) && |args| == Operands(isa[code - 1])
    requires Encoding(isa, parseInt, st.vars, code, args) == Ok(line)
    ensures InstructionLine(isa, parseInt, st, instr, args) == Ok(Append(st, line))
  {
  }

  /** The instruction line of a stack instruction naming a frame variable. */
  lemma StackInstruction(isa: Numbering, parseInt: IntParser, st: Asm, instr: string, code: nat, name: string)
    requires Ready(isa) && FromString(isa, instr) == Some(code) && ArityOk(Classify(instr), 1)
    requires Operands(isa[code - 1]) == 1 && code >= CodeOf(isa, LoadS)
    requires IsVarRef(st.vars, name) && Fits56(st.vars[name])
    requires parseInt(Decimal(st.vars[name])) == Some(st.vars[name])
    ensures var r := InstructionLine(isa, parseInt, st, instr, [name]);
            && r.Ok? && |r.value.lines| == |st.lines| + 1
            && var line := r.value.lines[|st.lines|];
            && Opcode(line.op) == code && Operand(line.op) == st.vars[name]
            && line.target == "" && !line.data
  {
    StackEncoding(isa, parseInt, st.vars, code, name);
    var r := Encoding(isa, parseInt, st.vars, code, [name]);
    InstructionAppends(isa, parseInt, st, instr, [name], code, r.value);
    assert Append(st, r.value).lines[|st.lines|] == r.value;
  }

  /** A stack instruction naming a frame variable gets the variable's slot as its operand, given a
      number parser that reads decimal numerals back. */
  lemma StackVariable(isa: Numbering, parseInt: IntParser, st: Asm, first: string, code: nat, name: string)
    requires Ready(isa) && FromString(isa, Enumeration.Lower(first)) == Some(code)
    requires Operands(isa[code - 1]) == 1 && code >= CodeOf(isa, LoadS)
    requires IsVarRef(st.vars, name) && Fits56(st.vars[name])
    requires parseInt(Decimal(st.vars[name])) == Some(st.vars[name])
    ensures var r := CompileLine(isa, parseInt, st, first, [name]);
            && r.Ok? && |r.value.lines| == |st.lines| + 1
            && var line := r.value.lines[|st.lines|];
            && Opcode(line.op) == code && Operand(line.op) == st.vars[name]
            && line.target == "" && !line.data
  {
    CompiledInstruction(isa, parseInt, st, first, [name], code);
    StackInstruction(isa, parseInt, st, Enumeration.Lower(first), code, name);
  }

  /** A stack instruction naming something that is not a frame variable is rejected. */
  lemma UnknownVariable(isa: Numbering, parseInt: IntParser, vars: map<string, nat>, code: nat, name: string)
    requires Ready(isa) && 1 <= code <= |isa| && Operands(isa[code - 1]) == 1
    requires code >= CodeOf(isa, LoadS)
    requires |name| > 0 && IsAddressLabel(name) && name !in vars
    ensures Encoding(isa, parseInt, vars, code, [name]) == Err(UnknownStackVariable(name))
  {
  }

  // Label resolution.

  /** `emitCode` on one line: data and label-free lines pass unchanged; a label must be known, and
      its offset from the line must fit the field it goes in. A jump operand then leads from the
      line to the label; a 48-bit offset leaves the low operand byte alone. */
  lemma ResolveMeaning(line: AsmLine, pc: int, labels: map<string, int>)
    ensures var r := Resolve(line, pc, labels);
            && (line.data || line.target == "" ==> r == Ok(line.op))
            && (!line.data && line.target != "" && line.target !in labels ==> r == Err(UnknownLabel(line.target)))
            && (!line.data && line.target != "" && line.target in labels ==>
                  var offset := labels[line.target] - pc;
                  && (r.Ok? <==> if line.is48 then Fits48(offset) else Fits56(offset))
                  && (r.Ok? ==> Opcode(r.value) == Opcode(line.op))
                  && (r.Ok? && line.is48 ==> pc + HighField(Operand(r.value)) == labels[line.target]
                                              && LowField(Operand(r.value)) == LowField(Operand(line.op)))
                  && (r.Ok? && !line.is48 ==> pc + Operand(r.value) == labels[line.target]))
  {
    if !line.data && line.target != "" && line.target in labels && line.is48 {
      var offset := labels[line.target] - pc;
      if Fits48(offset) {
        Set48Fields(line.op, offset);
      }
    }
  }

  /** `emitCode` succeeds exactly when every line resolves; it then writes each line's word in
      order, and otherwise stops at the first line that does not resolve, with its error. */
  lemma {:induction false} EmitCodeEach(lines: seq<AsmLine>, labels: map<string, int>, from: nat)
    requires from <= |lines|
    ensures var r := EmitCode(lines, labels, from);
            && (r.Ok? <==> forall i :: from <= i < |lines| ==> Resolve(lines[i], i, labels).Ok?)
            && (r.Ok? ==> forall i :: from <= i < |lines| ==> r.value[i - from] == Resolve(lines[i], i, labels).value)
            && (r.Err? ==> exists i :: from <= i < |lines| && Resolve(lines[i], i, labels) == Err(r.error)
                                       && forall j :: from <= j < i ==> Resolve(lines[j], j, labels).Ok?)
    decreases |lines| - from
  {
    if from < |lines| {
      EmitCodeEach(lines, labels, from + 1);
      var r := EmitCode(lines, labels, from);
      if Resolve(lines[from], from, labels).Ok? && r.Err? {
        var rest := EmitCode(lines, labels, from + 1);
        var i :| from + 1 <= i < |lines| && Resolve(lines[i], i, labels) == Err(rest.error)
                 && forall j :: from + 1 <= j < i ==> Resolve(lines[j], j, labels).Ok?;
        assert Resolve(lines[i], i, labels) == Err(r.error);
      }
    }
  }

  /** A line naming a label nobody defines stops `emitCode`, unless an earlier line failed first. */
  lemma MissingLabel(lines: seq<AsmLine>, labels: map<string, int>, i: nat)
    requires i < |lines| && !lines[i].data && lines[i].target != "" && lines[i].target !in labels
    ensures EmitCode(lines, labels, 0).Err?
  {
    EmitCodeEach(lines, labels, 0);
  }

  // Output.

  /** `str8 text` emits the length-prefixed UTF-8 bytes of `text` as data words, which `emitCode`
      passes through unchanged. */
  lemma Str8Line(isa: Numbering, parseInt: IntParser, st: Asm, text: string)
    requires Ready(isa) && 1 <= |Utf8(text)| <= 255
    ensures var r := CompileLine(isa, parseInt, st, "str8", [text]);
            && r.Ok?
            && var ws := Str8.AsmSerializeStr8(Utf8(text)).value;
            && r.value.lines == st.lines + DataLines(ws)
            && forall i :: 0 <= i < |ws| ==> Resolve(r.value.lines[|st.lines| + i], |st.lines| + i, r.value.labels) == Ok(ws[i])
  {
    Keywords();
    Enumeration.LowerIsLowerCase("str8");
    DirectiveLine(isa, parseInt, st, "str8", [text]);
  }

  /** Those words print back as exactly the text's bytes, wherever the program puts them. */
  lemma Str8Prints(st: Asm, text: string, host: Effects.Host, k: nat, before: seq<i64>, after: seq<i64>)
    requires 1 <= |Utf8(text)| <= 255
    ensures var r := Str8Directive(st, text);
            && r.Ok?
            && var ws := Str8.AsmSerializeStr8(Utf8(text)).value;
            && r.value.lines == st.lines + DataLines(ws)
            && var w := Str8.WriteStr8(host, k, before + ws + after, 8 * |before|);
            && w.Ok? && w.value.event == Some(Effects.Wrote(Utf8(text), host(k, Utf8(text))))
  {
    Str8.AsmStr8WriteRoundTrip(host, k, before, Utf8(text), after);
  }

  /** The assembled file loads back, in both interpreters, as exactly the words `emitCode`
      produced. */
  lemma CompileLoads(isa: Numbering, unquote: Lexer.Unquoter, parseInt: IntParser, src: string)
    requires Ready(isa)
    ensures var r := Compile(isa, unquote, parseInt, src);
            var a := Assemble(isa, unquote, parseInt, src, EMPTY);
            && (r.Ok? <==> (a.Ok? && EmitCode(a.value.lines, a.value.labels, 0).Ok?))
            && (r.Ok? ==> var program := EmitCode(a.value.lines, a.value.labels, 0).value;
                          && Loader.LoadC(r.value) == Ok(program)
                          && Loader.LoadGo(r.value) == Ok(program))
  {
    var r := Compile(isa, unquote, parseInt, src);
    if r.Ok? {
      var st := Assemble(isa, unquote, parseInt, src, EMPTY).value;
      Loader.LoadImage(EmitCode(st.lines, st.labels, 0).value);
    }
  }

  // Labels in operands.

  /** For an ASCII first character, an operand is a label exactly when it starts with a letter. */
  lemma AsciiLabel(s: string)
    requires |s| > 0 && s[0] as int < 0x80
    ensures IsAddressLabel(s) <==> 'A' <= s[0] <= 'Z' || 'a' <= s[0] <= 'z'
  {
  }

  /** Beyond ASCII only the first UTF-8 byte is looked at, read as a Latin-1 character: a Hebrew
      letter (lead byte 0xD7, the multiplication sign) is not a label, while the euro sign (lead
      byte 0xE2, a-circumflex) is. */
  lemma FirstByteOnly()
    ensures !IsAddressLabel([0x5D0 as char])
    ensures IsAddressLabel([0x20AC as char])
  {
    assert Utf8([0x5D0 as char])[0] == 0xD7;
    assert Utf8([0x20AC as char])[0] == 0xE2;
  }
}
