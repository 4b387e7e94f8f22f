/** Go enumerations numbered with `iota` after an `Invalid...` sentinel (code 0) and closed by a
    `Last...` sentinel, with a lookup map from lower-cased names to codes built by walking the
    codes strictly between the two sentinels. */
module Enumeration {
  import opened Base

  /** The lookup map's answer for `s`: `names[i]` is the (lower-cased) name of code `i + 1`. When
      two codes share a name the later one wins, as the later map assignment overwrites. */
  function Lookup(names: seq<string>, s: string): (r: Option<nat>)
    ensures r.Some? ==> 1 <= r.value <= |names| && names[r.value - 1] == s
    ensures r.Some? ==> forall j :: r.value <= j < |names| ==> names[j] != s
    ensures r.None? <==> s !in names
  {
    if |names| == 0 then None
    else if names[|names| - 1] == s then Some(|names|)
    else
      var r := Lookup(names[..|names| - 1], s);
      assert names == names[..|names| - 1] + [names[|names| - 1]];
      r
  }

  predicate Distinct<T(==)>(xs: seq<T>)
  {
    forall i, j :: 0 <= i < j < |xs| ==> xs[i] != xs[j]
  }

  /** With distinct names, every entry is found under its own name, with its own code. */
  lemma LookupOwnName(names: seq<string>, i: nat)
    requires Distinct(names)
    requires i < |names|
    ensures Lookup(names, names[i]) == Some(i + 1)
  {
  }

  /** The ASCII case folding applied to a character by `strings.ToLower`. */
  function LowerChar(c: char): char
  {
    if 'A' <= c <= 'Z' then (c as int + 32) as char else c
  }

  /** `strings.ToLower` on the ASCII letters of `s`. */
  function Lower(s: string): (r: string)
    ensures |r| == |s|
    ensures forall i :: 0 <= i < |s| ==> r[i] == LowerChar(s[i])
  {
    if |s| == 0 then [] else [LowerChar(s[0])] + Lower(s[1..])
  }

  predicate IsLowerCase(s: string)
  {
    forall i :: 0 <= i < |s| ==> !('A' <= s[i] <= 'Z')
  }

  lemma LowerIsLowerCase(s: string)
    ensures IsLowerCase(Lower(s))
    ensures IsLowerCase(s) ==> Lower(s) == s
  {}
}

/** The instruction kinds the C VM (`run_program`) and the Go VM (`execute`) dispatch on, with the
    names Go's `stringer` gives them. Their numeric codes are set by an enumeration (`Numbering`). */
module Isa {
  import opened Base
  import Enumeration

  datatype Kind =
    | LoadI | AddI | SubI | MulI | DivI | ModI | ShiftI | AndI
    | JNZ | JNEG | JPOS
    | JNE | JEQ | JLT | JGT | JGTE | JLTE
    | JumpR | LoadR | AddR | SubR | MulR | DivR | StoreR | IncrR
    | Sys | SysS | Call | Ret | Push | Pop
    | LoadS | StoreS | AddS | SubS | MulS | DivS | IncrS | IdivS | StoreSB

  /** The identifier of the enumeration constant, which `String()` returns. */
  function Name(k: Kind): string
  {
    match k
    case LoadI => "LoadI" case AddI => "AddI" case SubI => "SubI" case MulI => "MulI"
    case DivI => "DivI" case ModI => "ModI" case ShiftI => "ShiftI" case AndI => "AndI"
    case JNZ => "JNZ" case JNEG => "JNEG" case JPOS => "JPOS"
    case JNE => "JNE" case JEQ => "JEQ" case JLT => "JLT" case JGT => "JGT"
    case JGTE => "JGTE" case JLTE => "JLTE"
    case JumpR => "JumpR" case LoadR => "LoadR" case AddR => "AddR" case SubR => "SubR"
    case MulR => "MulR" case DivR => "DivR" case StoreR => "StoreR" case IncrR => "IncrR"
    case Sys => "Sys" case SysS => "SysS" case Call => "Call" case Ret => "Ret"
    case Push => "Push" case Pop => "Pop"
    case LoadS => "LoadS" case StoreS => "StoreS" case AddS => "AddS" case SubS => "SubS"
    case MulS => "MulS" case DivS => "DivS" case IncrS => "IncrS" case IdivS => "IdivS"
    case StoreSB => "StoreSB"
  }

  /** The lower-cased name the assembler's lookup table is keyed by. */
  function Mnemonic(k: Kind): string
  {
    match k
    case LoadI => "loadi"
    case AddI => "addi"
    case SubI => "subi"
    case MulI => "muli"
    case DivI => "divi"
    case ModI => "modi"
    case ShiftI => "shifti"
    case AndI => "andi"
    case JNZ => "jnz"
    case JNEG => "jneg"
    case JPOS => "jpos"
    case JNE => "jne"
    case JEQ => "jeq"
    case JLT => "jlt"
    case JGT => "jgt"
    case JGTE => "jgte"
    case JLTE => "jlte"
    case JumpR => "jumpr"
    case LoadR => "loadr"
    case AddR => "addr"
    case SubR => "subr"
    case MulR => "mulr"
    case DivR => "divr"
    case StoreR => "storer"
    case IncrR => "incrr"
    case Sys => "sys"
    case SysS => "syss"
    case Call => "call"
    case Ret => "ret"
    case Push => "push"
    case Pop => "pop"
    case LoadS => "loads"
    case StoreS => "stores"
    case AddS => "adds"
    case SubS => "subs"
    case MulS => "muls"
    case DivS => "divs"
    case IncrS => "incrs"
    case IdivS => "idivs"
    case StoreSB => "storesb"
  }

  /** An instruction enumeration: `isa[i]` has code `i + 1`; code 0 is `InvalidInstruction` and
      code `|isa| + 1` is `LastInstruction`. */
  type Numbering = seq<Kind>

  /** The kind an opcode byte denotes, if any: codes strictly between the two sentinels. */
  function KindOf(isa: Numbering, code: int): (r: Option<Kind>)
    ensures r.Some? <==> 1 <= code <= |isa|
    ensures r.Some? ==> r.value == isa[code - 1]
  {
    if 1 <= code <= |isa| then Some(isa[code - 1]) else None
  }

  /** The code of kind `k`: one more than its position. */
  function CodeOf(isa: Numbering, k: Kind): (c: nat)
    requires k in isa
    ensures 1 <= c <= |isa| && isa[c - 1] == k
  {
    if isa[0] == k then 1 else 1 + CodeOf(isa[1..], k)
  }

  function Mnemonics(isa: Numbering): (names: seq<string>)
    ensures |names| == |isa|
    ensures forall i :: 0 <= i < |isa| ==> names[i] == Mnemonic(isa[i])
  {
    seq(|isa|, i requires 0 <= i < |isa| => Mnemonic(isa[i]))
  }

  /** `InstructionFromString`: the code registered under the lower-case name `s`. */
  function FromString(isa: Numbering, s: string): (r: Option<nat>)
    ensures r.Some? ==> 1 <= r.value <= |isa| && Mnemonic(isa[r.value - 1]) == s
    ensures r.None? <==> forall i :: 0 <= i < |isa| ==> Mnemonic(isa[i]) != s
  {
    Enumeration.Lookup(Mnemonics(isa), s)
  }

  /** The table keys are `strings.ToLower` of the `String()` names. */
  lemma MnemonicIsLowerName(k: Kind)
    ensures Mnemonic(k) == Enumeration.Lower(Name(k))
  {
    match k
    case LoadI | AddI | SubI | MulI | DivI | ModI | ShiftI | AndI => LowerImmediate(k);
    case JNZ | JNEG | JPOS | JNE | JEQ | JLT | JGT | JGTE | JLTE => LowerJump(k);
    case JumpR | LoadR | AddR | SubR | MulR | DivR | StoreR | IncrR => LowerRelative(k);
    case Sys | SysS | Call | Ret | Push | Pop => LowerControl(k);
    case LoadS | StoreS | IncrS | StoreSB => LowerStackMove(k);
    case AddS | SubS | MulS | DivS | IdivS => LowerStackArith(k);
  }

  lemma LowerImmediate(k: Kind)
    requires k.LoadI? || k.AddI? || k.SubI? || k.MulI? || k.DivI? || k.ModI? || k.ShiftI? || k.AndI?
    ensures Mnemonic(k) == Enumeration.Lower(Name(k))
  {
  }

  lemma LowerJump(k: Kind)
    requires k.JNZ? || k.JNEG? || k.JPOS? || k.JNE? || k.JEQ? || k.JLT? || k.JGT? || k.JGTE? || k.JLTE?
    ensures Mnemonic(k) == Enumeration.Lower(Name(k))
  {
  }

  lemma LowerRelative(k: Kind)
    requires k.JumpR? || k.LoadR? || k.AddR? || k.SubR? || k.MulR? || k.DivR? || k.StoreR? || k.IncrR?
    ensures Mnemonic(k) == Enumeration.Lower(Name(k))
  {
  }

  lemma LowerControl(k: Kind)
    requires k.Sys? || k.SysS? || k.Call? || k.Ret? || k.Push? || k.Pop?
    ensures Mnemonic(k) == Enumeration.Lower(Name(k))
  {
  }

  lemma LowerStackMove(k: Kind)
    requires k.LoadS? || k.StoreS? || k.IncrS? || k.StoreSB?
    ensures Mnemonic(k) == Enumeration.Lower(Name(k))
  {
  }

  lemma LowerStackArith(k: Kind)
    requires k.AddS? || k.SubS? || k.MulS? || k.DivS? || k.IdivS?
    ensures Mnemonic(k) == Enumeration.Lower(Name(k))
  {
  }

  /** Length, first two and last character: already enough to tell every mnemonic apart. */
  function Key(s: string): (int, char, char, char)
  {
    if |s| < 2 then (|s|, ' ', ' ', ' ') else (|s|, s[0], s[1], s[|s| - 1])
  }

  /** The inverse of `Key` on mnemonics, which shows that no two kinds share a lower-cased name. */
  function KindOfKey(key: (int, char, char, char)): Option<Kind>
  {
    match key
    case (5, 'l', 'o', 'i') => Some(LoadI)
    case (4, 'a', 'd', 'i') => Some(AddI)
    case (4, 's', 'u', 'i') => Some(SubI)
    case (4, 'm', 'u', 'i') => Some(MulI)
    case (4, 'd', 'i', 'i') => Some(DivI)
    case (4, 'm', 'o', 'i') => Some(ModI)
    case (6, 's', 'h', 'i') => Some(ShiftI)
    case (4, 'a', 'n', 'i') => Some(AndI)
    case (3, 'j', 'n', 'z') => Some(JNZ)
    case (4, 'j', 'n', 'g') => Some(JNEG)
    case (4, 'j', 'p', 's') => Some(JPOS)
    case (3, 'j', 'n', 'e') => Some(JNE)
    case (3, 'j', 'e', 'q') => Some(JEQ)
    case (3, 'j', 'l', 't') => Some(JLT)
    case (3, 'j', 'g', 't') => Some(JGT)
    case (4, 'j', 'g', 'e') => Some(JGTE)
    case (4, 'j', 'l', 'e') => Some(JLTE)
    case (5, 'j', 'u', 'r') => Some(JumpR)
    case (5, 'l', 'o', 'r') => Some(LoadR)
    case (4, 'a', 'd', 'r') => Some(AddR)
    case (4, 's', 'u', 'r') => Some(SubR)
    case (4, 'm', 'u', 'r') => Some(MulR)
    case (4, 'd', 'i', 'r') => Some(DivR)
    case (6, 's', 't', 'r') => Some(StoreR)
    case (5, 'i', 'n', 'r') => Some(IncrR)
    case (3, 's', 'y', 's') => Some(Sys)
    case (4, 's', 'y', 's') => Some(SysS)
    case (4, 'c', 'a', 'l') => Some(Call)
    case (3, 'r', 'e', 't') => Some(Ret)
    case (4, 'p', 'u', 'h') => Some(Push)
    case (3, 'p', 'o', 'p') => Some(Pop)
    case (5, 'l', 'o', 's') => Some(LoadS)
    case (6, 's', 't', 's') => Some(StoreS)
    case (4, 'a', 'd', 's') => Some(AddS)
    case (4, 's', 'u', 's') => Some(SubS)
    case (4, 'm', 'u', 's') => Some(MulS)
    case (4, 'd', 'i', 's') => Some(DivS)
    case (5, 'i', 'n', 's') => Some(IncrS)
    case (5, 'i', 'd', 's') => Some(IdivS)
    case (7, 's', 't', 'b') => Some(StoreSB)
    case _ => None
  }

  lemma KeyInverse(k: Kind)
    ensures KindOfKey(Key(Mnemonic(k))) == Some(k)
  {
  }

  lemma MnemonicInjective(a: Kind, b: Kind)
    requires Mnemonic(a) == Mnemonic(b)
    ensures a == b
  {
    KeyInverse(a);
    KeyInverse(b);
  }

  /** In an enumeration without repeats, every listed kind is found under its lower-cased name,
      with its own code. */
  lemma FromStringFindsEachKind(isa: Numbering, i: nat)
    requires Enumeration.Distinct(isa)
    requires i < |isa|
    ensures FromString(isa, Mnemonic(isa[i])) == Some(i + 1)
  {
    var names := Mnemonics(isa);
    forall a, b | 0 <= a < b < |names|
      ensures names[a] != names[b]
    {
      if names[a] == names[b] {
        MnemonicInjective(isa[a], isa[b]);
      }
    }
    Enumeration.LookupOwnName(names, i);
  }
}

/** The syscall enumeration: `InvalidSyscall` = 0, then Exit, Sleep and Write, then `LastSyscall`.
    The C VM dispatches on the same ids. */
module Syscalls {
  import opened Base
  import Enumeration

  datatype Syscall = Exit | Sleep | Write

  const SYSCALLS: seq<Syscall> := [Exit, Sleep, Write]

  const INVALID_SYSCALL: int := 0

  const LAST_SYSCALL: int := |SYSCALLS| + 1

  /** The identifier `String()` returns. */
  function Name(c: Syscall): string
  {
    match c
    case Exit => "Exit"
    case Sleep => "Sleep"
    case Write => "Write"
  }

  function Id(c: Syscall): (id: nat)
    ensures 1 <= id <= |SYSCALLS| && SYSCALLS[id - 1] == c
  {
    match c
    case Exit => 1
    case Sleep => 2
    case Write => 3
  }

  /** The syscall an id byte denotes, if any. */
  function SyscallOf(id: int): (r: Option<Syscall>)
    ensures r.Some? <==> INVALID_SYSCALL < id < LAST_SYSCALL
    ensures r.Some? ==> Id(r.value) == id
  {
    if 1 <= id <= |SYSCALLS| then Some(SYSCALLS[id - 1]) else None
  }

  /** The lower-cased name the assembler writes. */
  function Mnemonic(c: Syscall): string
  {
    match c
    case Exit => "exit"
    case Sleep => "sleep"
    case Write => "write"
  }

  lemma MnemonicIsLowerName(c: Syscall)
    ensures Mnemonic(c) == Enumeration.Lower(Name(c))
  {}

  function Names(): (names: seq<string>)
    ensures |names| == |SYSCALLS|
    ensures forall i :: 0 <= i < |SYSCALLS| ==> names[i] == Mnemonic(SYSCALLS[i])
  {
    seq(|SYSCALLS|, i requires 0 <= i < |SYSCALLS| => Mnemonic(SYSCALLS[i]))
  }

  /** `SyscallFromString`: the id registered under the lower-case name `s`. */
  function FromString(s: string): (r: Option<nat>)
    ensures r.Some? ==> INVALID_SYSCALL < r.value < LAST_SYSCALL
    ensures r.Some? ==> Mnemonic(SYSCALLS[r.value - 1]) == s
    ensures r.None? <==> forall i :: 0 <= i < |SYSCALLS| ==> Mnemonic(SYSCALLS[i]) != s
  {
    Enumeration.Lookup(Names(), s)
  }

  /** The table holds exactly the three lower-cased names, each with its own id. */
  lemma FromStringTable(s: string)
    ensures FromString(s) == (if s == "exit" then Some(1) else if s == "sleep" then Some(2)
                              else if s == "write" then Some(3) else None)
  {
    var names := Names();
    assert names[0] == "exit" && names[1] == "sleep" && names[2] == "write";
    if s == "exit" {
      assert names[1] != s && names[2] != s;
    } else if s == "sleep" {
      assert names[2] != s && names[0] != s;
    } else if s == "write" {
      assert names[0] != s && names[1] != s;
    }
  }

  /** The names are matched as given: the capitalised `String()` names are not in the table. */
  lemma FromStringNeedsLowerCase()
    ensures FromString("Exit").None? && FromString("Sleep").None? && FromString("Write").None?
  {
    FromStringTable("Exit");
    FromStringTable("Sleep");
    FromStringTable("Write");
  }
}

/** The instruction enumeration of `cpu/instruction.go`: twenty instructions after
    `InvalidInstruction`, without ModR, ShiftR or AndR. */
module Instructions {
  import opened Base
  import opened Isa
  import Enumeration

  const INSTRUCTIONS: Numbering := [
    LoadI, AddI, SubI, MulI, DivI, ModI, ShiftI, AndI, JNZ, JNEG, JPOS,
    JumpR, LoadR, AddR, SubR, MulR, DivR, StoreR, IncrR, Sys]

  const INVALID_INSTRUCTION: int := 0

  const LAST_INSTRUCTION: int := |INSTRUCTIONS| + 1

  /** `InstructionFromString` for this enumeration. */
  function InstructionFromString(s: string): (r: Option<nat>)
    ensures r.Some? ==> INVALID_INSTRUCTION < r.value < LAST_INSTRUCTION
    ensures r.Some? ==> Mnemonic(INSTRUCTIONS[r.value - 1]) == s
  {
    FromString(INSTRUCTIONS, s)
  }

  /** The numbering: LoadI is 1, the codes run consecutively to Sys at 20, and the closing
      sentinel is 21; neither sentinel names an instruction. */
  lemma Numbering()
    ensures LAST_INSTRUCTION == 21
    ensures KindOf(INSTRUCTIONS, 1) == Some(LoadI) && KindOf(INSTRUCTIONS, 20) == Some(Sys)
    ensures KindOf(INSTRUCTIONS, INVALID_INSTRUCTION).None? && KindOf(INSTRUCTIONS, LAST_INSTRUCTION).None?
  {}

  /** Where each instruction sits in the enumeration; -1 for those it leaves out. */
  function Position(k: Kind): int
  {
    match k
    case LoadI => 0 case AddI => 1 case SubI => 2 case MulI => 3 case DivI => 4
    case ModI => 5 case ShiftI => 6 case AndI => 7 case JNZ => 8 case JNEG => 9
    case JPOS => 10 case JumpR => 11 case LoadR => 12 case AddR => 13 case SubR => 14
    case MulR => 15 case DivR => 16 case StoreR => 17 case IncrR => 18 case Sys => 19
    case _ => -1
  }

  lemma NoRepeats()
    ensures Enumeration.Distinct(INSTRUCTIONS)
  {
    forall i | 0 <= i < |INSTRUCTIONS|
      ensures Position(INSTRUCTIONS[i]) == i
    {}
  }

  /** LoadI is found under its lower-cased name with code 1. */
  lemma FromStringLoadI()
    ensures InstructionFromString("loadi") == Some(1)
  {
    NoRepeats();
    assert INSTRUCTIONS[0] == LoadI && Mnemonic(LoadI) == "loadi";
    FromStringFindsEachKind(INSTRUCTIONS, 0);
  }

  /** Sys is found under its lower-cased name with code 20. */
  lemma FromStringSys()
    ensures InstructionFromString("sys") == Some(20)
  {
    NoRepeats();
    assert INSTRUCTIONS[19] == Sys && Mnemonic(Sys) == "sys";
    FromStringFindsEachKind(INSTRUCTIONS, 19);
  }

  /** An all-zero word never decodes to an instruction. */
  lemma ZeroWordIsInvalid()
    ensures KindOf(INSTRUCTIONS, 0 % 256).None?
  {}

  /** A name that no kind lower-cases to is not found under any enumeration. */
  lemma NotAMnemonic(isa: Numbering, s: string)
    requires KindOfKey(Key(s)).None?
    ensures FromString(isa, s).None?
  {
    if FromString(isa, s).Some? {
      var k := isa[FromString(isa, s).value - 1];
      KeyInverse(k);
    }
  }

  /** There is no ModR, ShiftR or AndR, and capitalised names are not found. */
  lemma NoSuchInstructions()
    ensures InstructionFromString("modr").None?
    ensures InstructionFromString("shiftr").None?
    ensures InstructionFromString("andr").None?
    ensures InstructionFromString("LoadI").None?
  {
    NotAMnemonic(INSTRUCTIONS, "modr");
    NotAMnemonic(INSTRUCTIONS, "shiftr");
    NotAMnemonic(INSTRUCTIONS, "andr");
    NotAMnemonic(INSTRUCTIONS, "LoadI");
  }
}
