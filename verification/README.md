# grol-io/vm in Dafny

grol-io/vm is a small virtual machine with a single accumulator. A program is a file: an 8-byte
header, then 64-bit little-endian instruction words. The low byte of each word is the opcode and the
remaining 56 bits, sign-extended, are the operand. The machine has a program counter, the program
itself (which instructions may read and write), a 256-cell stack with a stack pointer, and a small
set of system calls reached through `Sys` and `SysS`:

- `exit` ends the program with a status;
- `sleep` waits a number of milliseconds;
- `write` prints a *str8*, a length-prefixed byte string packed little-endian into words.

The repository holds two interpreters:

- a C one (`cvm/cvm.c`), which this model treats as the reference semantics;
- a Go one (`cpu/cpu.go`), whose differences are branches on a `Dialect` parameter.

It also holds an assembler (`asm/asm.go`) that turns text into program files, and the two
enumerations of instructions and syscalls (`cpu/instruction.go`, `cpu/syscall.go`).

The project models:

- the instruction codec (`Codec`), on 64-bit words written as bounded integers (`Int64`, `Bytes`);
- the enumerations (`Enumeration`, `Isa`, `Syscalls`, `Instructions`);
- the step function of both interpreters (`Vm`), with its properties (`VmProps`) and whole runs
  (`VmRuns`);
- the str8 encoders, the Write and Read system calls (`Str8`), and the UTF-8 and numeral helpers
  the assembler needs (`Text`);
- the loaders of both interpreters as pure functions of the file's bytes (`Loader`);
- the assembler's tokenizer (`Lexer`, `LexerProps`);
- the assembler itself: directives, operand packing, stack variables and label resolution
  (`Assembler`, `AssemblerProps`).

Some facts live in files outside this model. The C interpreter takes its opcode numbering from
`cvm/cvm.h`, which is not part of this model. The Go sources also use an instruction list newer than
the one in `cpu/instruction.go` (with `LoadS`, `SysS`, `Call`, `JNE`, ...). So the step function and
the assembler take the enumeration as a parameter `isa: seq<Kind>`: `isa[i]` has opcode `i + 1`,
and 0 and `|isa| + 1` are the sentinels. `Instructions.INSTRUCTIONS` is the 20-entry instance that
`cpu/instruction.go` declares. The syscall ids are those of `cpu/syscall.go`.

Where the C code has undefined behaviour, the step stops with an `Undefined` outcome. This covers
division by zero, `INT64_MIN / -1`, shift counts of 64 or more, a left shift of a negative
accumulator or one whose product by 2^v does not fit, and stack or program accesses out of range.

Calls into library code are parameters:

- `strconv.Unquote` is an `Unquoter`;
- `strconv.ParseInt` is an `IntParser`;
- the number of bytes the host's `write` accepts is a `Host`.

Output and sleeping are events appended to a trace.

The two loaders differ on a file whose size after the header is not a multiple of 8. The C loader
computes the word count as `(size - 8) / 8` and ignores the trailing partial word
(`cvm/cvm.c:396-397`); the Go loader rejects such a file (`cpu/cpu.go:109-122`).
`Loader.TrailingBytes` states both.

## Model

| member | source | states |
|---|---|---|
| Codec.Operand | cpu/cpu.go:27-29 | the operand `op >> 8` always lies in the signed 56-bit range |
| Codec.SetOpcode | cpu/cpu.go:35-37 | the new word carries the given opcode and keeps the old operand |
| Codec.SetOperand | cpu/cpu.go:39-44 | succeeds exactly for operands in [-2^55, 2^55-1]; the result reads back that operand and keeps the opcode; otherwise it fails (the panic) with the offending value |
| Codec.Set48BitsOperand | cpu/cpu.go:46-51 | succeeds exactly for values in [-2^47, 2^47-1]; `>> 16` reads the value back, and the low 16 bits (and so the opcode) are kept; otherwise it fails with the value |
| Codec.EncodeDecode | cvm/cvm.c:37-39 | every 64-bit word is `(operand << 8) or opcode` of its own two decoded fields, so decoding is lossless |
| Codec.DecodeEncode | cvm/cvm.c:37-39 | decoding `(operand << 8) or opcode` gives back that opcode and that sign-extended operand, for every opcode byte and 56-bit operand |
| Codec.HighFieldIsOperand48 | cvm/cvm.c:348-352 | the nested field `operand >> 8` is the 48-bit operand `op >> 16`, and `operand & 0xFF` is byte 1 of the word |
| Codec.Set48Fields | cpu/cpu.go:46-51 | setting the 48-bit field keeps the opcode and the operand's low byte, and the high nested field reads back the value |
| Codec.NestedFields | asm/asm.go:346-347 | `SetOperand(low)` then `Set48BitsOperand(high)` leaves a word whose nested fields read back `low & 0xFF` and `high`, with the opcode kept |
| Int64.Wrap | cvm/cvm.c:84-95 | a wrapped result is congruent to the exact one modulo 2^64 and equals it when it fits |
| Int64.Unsigned | cvm/cvm.c:107-110 | the unsigned view of a word is congruent to it modulo 2^64 and is below 2^63 exactly for non-negative words |
| Int64.Signed | cvm/cvm.c:107-110 | reading an unsigned value as signed inverts `Unsigned`, negative exactly when the top bit is set |
| Int64.TRem | cvm/cvm.c:100-103 | C's `%` splits the dividend with the truncating quotient, is smaller than the divisor in magnitude and has the dividend's sign |
| Int64.TDivInRange | cvm/cvm.c:96-99 | truncating division of 64-bit values stays in 64 bits except for `INT64_MIN / -1` |
| Int64.Trunc32 | cvm/cvm.c:286-292 | the `(int)` conversion gives a 32-bit value congruent to the input modulo 2^32, equal to it when it fits |
| Int64.LowByte | cvm/cvm.c:37 | `x & 0xFF` is the byte congruent to `x` modulo 256 |
| Int64.Int8 | cvm/cvm.c:328-331 | `(int8_t)b` lies in [-128, 127] and has `b` as its low byte |
| Int64.SplitHighLow | cvm/cvm.c:37-39 | every value is `256 * (x >> 8) + (x & 0xFF)` |
| Int64.HalveSIsDiv | cpu/cpu.go:268-277 | k halvings of a signed value divide it by 2^k, rounding toward minus infinity |
| Int64.HalveUIsDiv | cvm/cvm.c:107-110 | k halvings of an unsigned value divide it by 2^k |
| Int64.LsrIsDiv | cvm/cvm.c:107-110 | the logical right shift divides the unsigned view by 2^k |
| Int64.AsrIsDiv | cpu/cpu.go:268-277 | Go's `>>` on `int64` divides by 2^k, rounding toward minus infinity |
| Int64.Lsr | cvm/cvm.c:107-110 | a logical shift by at least one yields a non-negative word; by zero it changes nothing |
| Int64.Asr | cpu/cpu.go:268-277 | an arithmetic shift keeps the sign; by zero it changes nothing |
| Int64.And | cvm/cvm.c:115-118 | `x & y` on two's complement patterns lies between 0 and any non-negative operand |
| Int64.AndCommutes | cpu/cpu.go:278-279 | `&` commutes |
| Int64.AndMask | cvm/cvm.c:115-118 | `x & (2^k - 1)` keeps the k low bits of x's unsigned pattern |
| Int64.AndLowByte | cvm/cvm.c:37 | `x & 0xFF` is the low byte of x, the byte congruent to x modulo 256 |
| Bytes.BytesOfPack | cpu/str8.go:10-15 | splitting the number packed from some bytes gives back those bytes |
| Bytes.PackBytesOf | cpu/str8.go:10-15 | packing the low n bytes of a number below 256^n gives back the number |
| Bytes.WordBytesOf | cvm/cvm.c:419-424 | the word made of eight bytes has exactly those bytes in memory order |
| Bytes.WordOfBytes | cvm/cvm.c:419-424 | a word's eight bytes make up that word again |
| Bytes.SetByte | cvm/cvm.c:353-361 | `(old and not (0xFF << 8j)) or (b << 8j)` changes byte j to b and no other byte |
| Bytes.MemBytesOfWords | cvm/cvm.c:419-424 | the memory image of the words decoded from a byte stream is that stream |
| Bytes.WordsOfMemBytes | cvm/cvm.c:419-424 | decoding a word array's memory image gives back the words |
| Bytes.MemBytesIndex | cvm/cvm.c:54-69 | byte k of a word array is byte `k % 8` of word `k / 8` |
| Enumeration.Lookup | cpu/instruction.go:39-50 | a name is found exactly when it is in the table; its code is its position plus one, and no later entry has the same name (a later map entry overwrites) |
| Enumeration.LookupOwnName | cpu/instruction.go:39-44 | with distinct names, each entry is found under its own name with its own code |
| Enumeration.Lower | asm/asm.go:232 | `strings.ToLower` keeps the length and folds each character |
| Enumeration.LowerIsLowerCase | asm/asm.go:232 | lower-casing yields lower-case text and changes nothing in text already lower-case |
| Isa.KindOf | cpu/instruction.go:7-32 | an opcode names an instruction exactly when it lies strictly between the two sentinels, and it names the entry at its position |
| Isa.CodeOf | cpu/instruction.go:7-32 | a listed instruction's code is its position plus one |
| Isa.FromString | cpu/instruction.go:47-50 | a name is found exactly when some listed instruction has it as lower-case name, and the code found is that instruction's |
| Isa.MnemonicIsLowerName | cpu/instruction.go:39-44 | each table key is `strings.ToLower` of the instruction's `String()` name |
| Isa.KeyInverse | cpu/instruction.go:39-44 | length, first two and last character of a lower-case name determine the instruction |
| Isa.MnemonicInjective | cpu/instruction.go:39-44 | no two instructions share a lower-case name |
| Isa.FromStringFindsEachKind | cpu/instruction.go:39-50 | in an enumeration without repeats, every listed instruction is found under its lower-case name with its own code |
| Syscalls.Id | cpu/syscall.go:7-13 | each syscall's id is its position plus one, strictly between the sentinels |
| Syscalls.SyscallOf | cvm/cvm.c:203-246 | an id names a syscall exactly when it lies between `InvalidSyscall` and `LastSyscall`, and that syscall has that id |
| Syscalls.MnemonicIsLowerName | cpu/syscall.go:20-25 | each table key is the lower-cased `String()` name |
| Syscalls.FromString | cpu/syscall.go:28-31 | a name is found exactly when it is a syscall's lower-case name; the id found is never a sentinel |
| Syscalls.FromStringTable | cpu/syscall.go:20-25 | the table holds exactly `exit` = 1, `sleep` = 2 and `write` = 3 |
| Syscalls.FromStringNeedsLowerCase | cpu/syscall.go:27-31 | the capitalised names are not found |
| Instructions.InstructionFromString | cpu/instruction.go:47-50 | a name found gives a code strictly between the sentinels, whose instruction has that name |
| Instructions.Numbering | cpu/instruction.go:8-31 | LoadI is 1, Sys is 20, the closing sentinel is 21, and neither sentinel names an instruction |
| Instructions.NoRepeats | cpu/instruction.go:9-30 | no instruction is listed twice |
| Instructions.FromStringLoadI | cpu/instruction.go:9 | `loadi` is found with code 1 |
| Instructions.FromStringSys | cpu/instruction.go:30 | `sys` is found with code 20 |
| Instructions.ZeroWordIsInvalid | cpu/instruction.go:8 | an all-zero word decodes to no instruction |
| Instructions.NotAMnemonic | cpu/instruction.go:47-50 | a name that is no instruction's lower-case name is found under no enumeration |
| Instructions.NoSuchInstructions | cpu/instruction.go:26 | `modr`, `shiftr` and `andr` do not exist, and `LoadI` in capitals is not found |
| Str8.Serialize | cpu/str8.go:6-17 | one to eight bytes pack little-endian into a word with zero high bytes; any other count fails with that count |
| Str8.SerializeLoop | asm/asm.go:169-179 | the shift-and-or loop computes `Serialize` |
| Str8.PrefixByte | asm/asm.go:190 | `(w << 8) or lengthByte` has the length byte first, then the seven bytes of w |
| Str8.Chunks | asm/asm.go:193-202 | the remaining bytes take `ceil(n / 8)` words |
| Str8.ChunksBytes | asm/asm.go:193-202 | the chunk words hold the remaining bytes in order, then zero padding |
| Str8.Str8WordsBytes | asm/asm.go:181-204 | a str8's memory image is its length byte, its data, then zeros up to a word boundary |
| Str8.AsmSerializeStr8 | asm/asm.go:181-204 | succeeds exactly for 1 to 255 bytes and takes `(l + 8) / 8` words |
| Str8.CpuSerializeStr8 | cpu/str8.go:21-38 | succeeds exactly for 1 to 256 bytes and takes `(l + 8) / 8` words |
| Str8.WriteStr8 | cvm/cvm.c:54-69 | fails exactly when the length byte or the data lie outside memory; a zero length prints nothing and returns 0; otherwise the host is handed the data bytes and the call returns the length if all were taken and -1 otherwise |
| Str8.Overwrite | cpu/cpu.go:126-152 | replacing bytes from an index changes exactly those bytes of the memory image |
| Str8.SysRead | cpu/cpu.go:126-152 | fails for a count outside 1..255 or memory too small; the data bytes land after the length byte; a failure returns -1, an empty read 0, otherwise the length byte becomes the count read, which is returned; nothing else changes |
| Str8.Str8AtImage | cvm/cvm.c:54-69 | a length byte followed by data anywhere in memory is what Write reads there |
| Str8.AsmStr8WriteRoundTrip | asm/asm.go:181-204 | what `serializeStr8` emits, placed anywhere in memory, prints as exactly its input bytes and returns their count when the host takes them all |
| Str8.CpuStr8DropsLastByte | cpu/str8.go:29 | Write reads the VM package's str8 one byte short: a one-byte string prints nothing and a longer one loses its last byte |
| Str8.ReadThenWrite | cpu/cpu.go:126-186 | a successful Read followed by a Write of the same str8 prints exactly the bytes read |
| Text.Utf8Char | asm/asm.go:270 | a character's UTF-8 bytes number one to four, one exactly for ASCII, and a non-ASCII lead byte is 0xC2..0xF4 |
| Text.Utf8 | asm/asm.go:266 | a Go string has at least as many bytes as characters, starting with the first character's lead byte |
| Text.Utf8Ascii | asm/asm.go:266 | ASCII text has one byte per character, the character's code |
| Text.NumeralRoundTrip | asm/asm.go:106 | the base-b numeral of n reads back as n |
| Text.NumeralLeadingDigit | asm/asm.go:106 | a numeral starts with 0 exactly when the number is 0 |
| Text.HexRoundTrip | asm/asm.go:106 | `%x` of a code point reads back as the code point, with no leading zero |
| Text.DecimalRoundTrip | asm/asm.go:312 | `%d` of a slot number reads back as the slot number, with no leading zero |
| Text.DecimalLeadingDigit | asm/asm.go:312 | `%d` of a natural number starts with an ASCII digit |
| Loader.LoadC | cvm/cvm.c:394-424 | the C loader accepts exactly the files that start with the header; it reads `(size - 8) / 8` words, which with the header are the file's first bytes |
| Loader.LoadGo | cpu/cpu.go:88-122 | the Go loader accepts exactly the files that start with the header and have whole words after it, and the header and words make up the whole file |
| Loader.Image | asm/asm.go:50 | the assembler's file is 8 header bytes plus 8 bytes per word |
| Loader.LoadImage | asm/asm.go:399-421 | both loaders read back exactly the words the assembler wrote |
| Loader.TrailingBytes | cvm/cvm.c:396-397 | one to seven bytes after the last word are ignored by C and rejected by Go |
| Loader.LoadersAgree | cpu/cpu.go:109-122 | when Go accepts a file, C reads the same words; they differ exactly on files with a header and a partial trailing word |
| Loader.HeaderRequired | cvm/cvm.c:413-418 | a file that does not start with the header is rejected by both, with the header that was read |
| Lexer.Emit | asm/asm.go:66-71 | closing the token appends it when it is not empty and clears it, keeping the quote state |
| Lexer.AfterNewline | asm/asm.go:115 | skipping to the end of the line consumes the newline when there is one |
| Lexer.Scan | asm/asm.go:74-127 | every line read consumes input, unless the input was already exhausted |
| Lexer.Parse | asm/asm.go:59-137 | a line that is read consumes input, and empty input is the end of input |
| LexerProps.ScanBare | asm/asm.go:117-123 | scanning text without quotes or comments collects its blank-separated words |
| LexerProps.ParseBare | asm/asm.go:117-136 | a line of text without quotes or comments yields its blank-separated words, and a wordless line at the end of the input is the end of the input |
| LexerProps.WordsShape | asm/asm.go:117-118 | the words are non-empty and hold no blank: runs of blanks collapse |
| LexerProps.WordsOfBlanks | asm/asm.go:132-136 | a line of blanks has no words |
| LexerProps.CommentEndsLine | asm/asm.go:112-116 | `#` or `;` outside quotes ends the line: the words before it are the tokens and the input resumes after the newline |
| LexerProps.CommentOnlyLine | asm/asm.go:112-116 | a line of blanks and a comment yields no tokens |
| LexerProps.AfterNewlineDropCR | asm/asm.go:84-85 | skipping a comment and removing carriage returns commute |
| LexerProps.ScanDropCR | asm/asm.go:84-85 | carriage returns change neither the tokens nor the errors |
| LexerProps.ParseDropCR | asm/asm.go:84-85 | the same for a whole line |
| LexerProps.ScanRun | asm/asm.go:122-126 | plain characters extend the current token |
| LexerProps.QuoteInsideToken | asm/asm.go:88-92 | a quote right after a token character is an error |
| LexerProps.ScanLiteralText | asm/asm.go:119-124 | characters inside a literal are collected as they are |
| LexerProps.UnterminatedLiteral | asm/asm.go:86-87 | a literal open at the end of input is an error, and so is one cut by a newline unless it is back-quoted |
| LexerProps.Literal | asm/asm.go:97-111 | a complete literal is one token: its unquoted text, or for a character literal `0x` and the code point in hexadecimal |
| LexerProps.CharLiteral | asm/asm.go:103-106 | `'c'` becomes the token `0x` + hex of c, which reads back as c's code point |
| Vm.Boot | cvm/cvm.c:71-79 | a run starts at pc 0 with accumulator 0, an empty stack (pointer -1) and nothing printed; the Go stack is zeroed |
| Vm.Next | cvm/cvm.c:374 | moving on increments pc by one |
| Vm.Quotient | cvm/cvm.c:96-99 | division is undefined exactly for a zero divisor and, in C only, `INT64_MIN / -1`; otherwise it is the truncating quotient wrapped to 64 bits |
| Vm.Remainder | cvm/cvm.c:100-103 | the remainder is undefined in the same cases and is otherwise the remainder of truncating division |
| Vm.Apply | cvm/cvm.c:84-103 | addition, subtraction and multiplication never fail and give the exact result wrapped to 64 bits; division and remainder fail exactly for a zero divisor and, in C only, `INT64_MIN / -1`, and otherwise give the wrapped truncating quotient and the truncating remainder |
| Vm.ProgramWord | cvm/cvm.c:144-151 | `program[pc + offset]` is defined exactly inside the program |
| Vm.StackWord | cvm/cvm.c:286-292 | `stack[i]` is defined exactly inside the 256 cells |
| Vm.Splice | cvm/cvm.c:265-275 | the cells from a position on are replaced and all others kept |
| Vm.Immediate | cvm/cvm.c:80-118 | an immediate instruction changes only the accumulator and pc, and stops only on undefined behaviour; the value each one loads is stated per instruction by `VmProps.LoadImmediate` through `VmProps.AndImmediate`, `VmProps.ShiftLeft` and `VmProps.ShiftRight` |
| Vm.Jump | cvm/cvm.c:119-143 | a jump changes only pc |
| Vm.Execute | cvm/cvm.c:79-374 | only a syscall stops the machine with an error (in Go only an unknown one); every non-control instruction moves to the next one; the program keeps its length |
| Vm.Step | cvm/cvm.c:74-79 | the run finishes exactly when pc leaves the program; the program keeps its length |
| Vm.Run | cvm/cvm.c:74-378 | any number of steps keeps the state well formed |
| Vm.CExitStatus | cvm/cvm.c:203-246 | the C process status is defined except after undefined behaviour, and a fatal error exits 1 |
| Vm.GoExitCode | cpu/cpu.go:547-562 | Go returns a code for every stop except a panic: after undefined behaviour or a failure other than an unknown opcode or syscall |
| VmProps.Dispatch | cvm/cvm.c:75-79 | a step decodes the word at pc and executes that instruction with that operand |
| VmProps.CallPushes | cvm/cvm.c:247-253 | Call pushes `pc + 1` and jumps by the operand |
| VmProps.ReturnPops | cvm/cvm.c:254-264 | `Ret k` drops k cells and pops the return address into pc |
| VmProps.PushLayout | cvm/cvm.c:265-275 | `Push n` writes n zero cells then the accumulator above the stack pointer and changes no other cell |
| VmProps.PopTop | cvm/cvm.c:276-285 | `Pop n` loads the top cell and drops n more cells |
| VmProps.StoreByteFields | cvm/cvm.c:348-368 | StoreSB sets byte `off % 8` of cell `sp - base + off / 8` to the accumulator's low byte, keeping the other bytes and cells |
| VmProps.IncrLocalStores | cvm/cvm.c:328-337 | IncrS adds the signed low byte to `stack[sp - (operand >> 8)]`; Go also loads the result into the accumulator |
| VmProps.IncrRelativeStores | cvm/cvm.c:192-202 | IncrR adds the signed low byte to `program[pc + (operand >> 8)]` and loads the result |
| VmProps.StackReadAgrees | cpu/cpu.go:472-511 | LoadS, AddS, SubS and MulS behave alike in both interpreters when the offset fits C's `int` |
| VmProps.FrameAgrees | cpu/cpu.go:440-471 | Pop and Ret behave alike in both interpreters when the operand fits C's `int` |
| VmProps.LoadImmediate | cvm/cvm.c:80-83 | LoadI loads its operand and moves on |
| VmProps.AddImmediate | cvm/cvm.c:84-87 | AddI adds its operand, wrapping, and moves on |
| VmProps.SubtractImmediate | cvm/cvm.c:88-91 | SubI subtracts its operand, wrapping, and moves on; Go likewise (`cpu/cpu.go:248`) |
| VmProps.MultiplyImmediate | cvm/cvm.c:92-95 | MulI multiplies by its operand, wrapping, and moves on; Go likewise (`cpu/cpu.go:253`) |
| VmProps.AndImmediate | cvm/cvm.c:115-118 | AndI replaces the accumulator by `acc & operand` and moves on; Go likewise (`cpu/cpu.go:278`) |
| VmProps.LoadLocal | cvm/cvm.c:286-292 | LoadS loads `stack[sp - offset]` with the offset cut to C's `int` (Go uses it whole, `cpu/cpu.go:472`), and is undefined outside the 256 cells |
| VmProps.LocalArithmetic | cvm/cvm.c:300-320 | AddS, SubS and MulS combine the accumulator with `stack[sp - offset]`, wrapping, and are undefined outside the 256 cells; Go likewise (`cpu/cpu.go:484-503`) |
| VmProps.StoreLocalCell | cvm/cvm.c:293-299 | StoreS writes the accumulator to `stack[sp - offset]`, changes no other cell and nothing else but pc, and is undefined outside the 256 cells; Go likewise (`cpu/cpu.go:478`) |
| VmProps.LoadRelativeWord | cvm/cvm.c:144-151 | LoadR loads `program[pc + offset]` and is undefined outside the program; Go likewise (`cpu/cpu.go:373`) |
| VmProps.RelativeArithmetic | cvm/cvm.c:152-175 | AddR, SubR and MulR combine the accumulator with `program[pc + offset]`, wrapping, and are undefined outside the program; Go likewise (`cpu/cpu.go:380-403`) |
| VmProps.DivideRelative | cvm/cvm.c:176-183 | DivR divides by `program[pc + offset]`, truncating; it is undefined outside the program, for a zero divisor and, in C only, for `INT64_MIN / -1` (`cpu/cpu.go:404`) |
| VmProps.StoreRelativeWord | cvm/cvm.c:184-191 | StoreR writes the accumulator to `program[pc + offset]`, changes no other word and nothing else but pc, and is undefined outside the program; Go likewise (`cpu/cpu.go:412`) |
| VmProps.StepsFrame | cvm/cvm.c:247-285 | a decoded Call, Ret, Push or Pop executes as the frame instruction with its operand |
| VmProps.CallReturnFrames | cvm/cvm.c:247-264 | Call pushes `pc + 1` and jumps, and `Ret 0` after it pops that address back into pc and restores the stack pointer |
| VmProps.PcAdvances | cvm/cvm.c:374 | every instruction other than a jump, Call or Ret moves to the next one |
| VmProps.ConditionalJumps | cvm/cvm.c:119-139 | JNZ, JNEG and JPOS jump by the operand exactly when the accumulator is non-zero, negative or non-negative, and change nothing but pc; Go has no such opcodes |
| VmProps.CompareJumps | cpu/cpu.go:283-366 | Go's JNE..JLTE compare the accumulator with the operand's low byte and jump by `operand >> 8`; C has no such opcodes |
| VmProps.RelativeJump | cvm/cvm.c:140-143 | JumpR moves pc by the operand and changes nothing else |
| VmProps.CallThenReturn | cvm/cvm.c:247-264 | a Call followed by `Ret 0` resumes at the instruction after the Call with the stack pointer, accumulator and program as before |
| VmProps.ReturnDiscards | cvm/cvm.c:254-264 | `Ret k` first drops k cells, then returns |
| VmProps.PushThenPop | cvm/cvm.c:265-285 | `Push n` then `Pop n` restores the accumulator and the stack pointer and leaves the pushed cells behind |
| VmProps.StoreByteOnly | cvm/cvm.c:348-368 | a StoreSB step changes one byte of one cell and nothing else but pc |
| VmProps.DivLocalSplits | cvm/cvm.c:338-347 | IdivS sets the cell to the truncating quotient by the accumulator and the accumulator to the remainder, which has the dividend's sign and is smaller than the divisor |
| VmProps.ExitOutcome | cvm/cvm.c:209-213 | the Exit syscall stops with its argument: C's status is its low byte, Go returns it |
| VmProps.UnknownSyscallIsFatal | cvm/cvm.c:241-245 | an unknown syscall id stops the machine: status 1 in C, code 99 in Go |
| VmProps.UnknownOpcodeIsFatal | cvm/cvm.c:369-373 | an opcode outside the enumeration stops the machine: status 1 in C, -1 in Go |
| VmProps.EndOfProgram | cvm/cvm.c:74-79 | leaving the program ends the run with status 0, keeping the accumulator |
| VmProps.SleepRange | cvm/cvm.c:214-226 | C rejects a Sleep argument outside [0, 1000] before sleeping; Go sleeps for any argument |
| VmProps.ProgramWrite | cvm/cvm.c:227-240 | a Write from the program prints the str8 at `pc + arg`; the accumulator becomes the length if the host took it all and -1 otherwise, which is fatal in C only |
| VmProps.ProgramWriteEffect | cpu/cpu.go:205-211 | the same for the syscall itself |
| VmProps.StackWriteIndex | cpu/cpu.go:207-208 | Go's stack Write starts at byte `(sp - arg) * 8 + acc` for every accumulator, and C's at the same byte when its `int` conversions lose nothing |
| VmProps.DialectsAgree | cpu/cpu.go:238-461 | the two interpreters agree on LoadI, AddI, SubI, MulI, AndI, JumpR, LoadR, AddR, SubR, MulR, StoreR, IncrR, Call and Push |
| VmProps.ExecuteAgrees | cpu/cpu.go:238-461 | the same for the instructions' effects |
| VmProps.ImmediateAgrees | cpu/cpu.go:238-282 | the immediate instructions other than division and shift agree |
| VmProps.ProgramRelativeAgrees | cpu/cpu.go:373-431 | the pc-relative instructions other than DivR agree |
| VmProps.DivisionAgrees | cpu/cpu.go:258-267 | DivI and ModI agree except on `INT64_MIN / -1` |
| VmProps.LocalsAgree | cpu/cpu.go:440-504 | LoadS, StoreS, AddS, SubS, MulS, Pop and Ret agree when the operand fits C's `int` |
| VmProps.ShiftLeft | cvm/cvm.c:104-114 | ShiftI by 0..63: Go multiplies by 2^v and wraps (`cpu/cpu.go:268-274`); C multiplies exactly when the accumulator is non-negative and the product fits, and is undefined otherwise |
| VmProps.ShiftRight | cvm/cvm.c:107-110 | ShiftI by -63..-1 shifts C's accumulator right logically (dividing the unsigned view) and Go's arithmetically (dividing, rounding down) |
| VmProps.ShiftCountUndefined | cvm/cvm.c:104-114 | a shift count of 64 or more either way is undefined in C |
| VmProps.ShiftDiverges | cpu/cpu.go:271 | on a negative accumulator the right shifts part ways: C's result is non-negative, Go's negative |
| VmProps.IncrementDialects | cpu/cpu.go:512-522 | IncrS stores the incremented cell in both; Go also loads it, C keeps the accumulator |
| VmProps.IncrementLocal | cvm/cvm.c:328-337 | the same for one interpreter at a time |
| VmProps.IncrementRelative | cvm/cvm.c:192-202 | IncrR stores the incremented word and loads it, in both |
| VmProps.DivideOverflowDiverges | cpu/cpu.go:258-267 | `INT64_MIN / -1` is undefined in C; Go wraps the quotient to `INT64_MIN` and the remainder is 0 |
| VmProps.GoStopsHaveCodes | cpu/cpu.go:188-218 | every Go stop other than a panic has an exit code: Go has no fatal Sleep or Write |
| VmRuns.RunStops | cvm/cvm.c:74-79 | a run whose first step stops ends there whatever the budget |
| VmRuns.RunContinues | cvm/cvm.c:74-79 | otherwise the run goes on from the state the step reached |
| VmRuns.Instr | asm/asm.go:321-390 | the assembler's word for an instruction decodes as that instruction and operand |
| VmRuns.SysOperandFields | asm/asm.go:164 | `(arg << 8) or id` holds the id in the low byte and the argument above it |
| VmRuns.LoadAddRun | cvm/cvm.c:80-87 | `loadi a; addi b` leaves `a + b`, wrapped, after two steps |
| VmRuns.ExitRun | cvm/cvm.c:80-213 | `loadi a; addi b; sys exit e` exits with e at the third step, with `a + b` in the accumulator |
| VmRuns.ExitProgramExits | cvm/cvm.c:71-213 | both interpreters run that program from boot to `exit(e)`, whatever the enumeration and the initial C stack |
| Assembler.Number | asm/asm.go:423-431 | an argument parses exactly when `strconv.ParseInt` accepts it, to its value |
| Assembler.WithOperand | cpu/cpu.go:39-44 | setting an operand succeeds exactly in the 56-bit range, reading it back and keeping the opcode |
| Assembler.OpWord | asm/asm.go:277-278 | an instruction word with an operand in range decodes as that instruction and operand |
| Assembler.MnemonicArity | asm/asm.go:235-252 | a mnemonic is never a directive, and the argument count check asks for its operand count |
| Assembler.ClassifyMnemonic | asm/asm.go:244-251 | `incrr`, `incrs`, `sys`, `syss` and `storesb` take two arguments and every other instruction one |
| Assembler.Append | asm/asm.go:393 | appending a line keeps labels and variables |
| Assembler.DataLines | asm/asm.go:189-201 | str8 words become data lines without label |
| Assembler.ResolveVars | asm/asm.go:305-318 | variable resolution keeps the number of arguments |
| Assembler.SysLine | asm/asm.go:143-166 | a syscall line keeps the opcode and is a 48-bit instruction line |
| Assembler.Nested | asm/asm.go:346-347 | the packed word reads back the low value's byte in the low field and the high value above it |
| Assembler.StoreLine | asm/asm.go:330-348 | a StoreSB line keeps the opcode and has no label |
| Assembler.IncrSLine | asm/asm.go:349-367 | an IncrS line keeps the opcode and has no label |
| Assembler.IncrRLine | asm/asm.go:368-379 | an IncrR line keeps the opcode and refers to its second argument as label |
| Assembler.PlainLine | asm/asm.go:380-391 | any other instruction line keeps the opcode and is not 48-bit |
| Assembler.Encoding | asm/asm.go:299-391 | an instruction line carries the instruction's opcode |
| Assembler.DataDirective | asm/asm.go:258-264 | `data v` succeeds exactly when v parses and appends the full 64-bit word as data |
| Assembler.Str8Directive | asm/asm.go:265-273 | `str8 text` succeeds exactly for 1 to 255 bytes of UTF-8, and keeps labels and variables |
| Assembler.VarDirective | asm/asm.go:274-283 | `var` succeeds exactly when `n - 1` fits the operand, and opens a frame of n slots |
| Assembler.ParamDirective | asm/asm.go:284-291 | `param` emits nothing and keeps the frame size |
| Assembler.ReturnDirective | asm/asm.go:292-298 | `return` succeeds exactly when the frame size fits the operand, and keeps the variables |
| Assembler.InstructionLine | asm/asm.go:299-394 | an instruction line appends exactly one line and keeps the earlier lines |
| Assembler.Resolve | asm/asm.go:401-414 | data lines and lines without label pass unchanged |
| Assembler.EmitCode | asm/asm.go:399-421 | one word per line |
| AssemblerProps.Keywords | asm/asm.go:235-298 | `data`, `str8`, `var`, `param` and `return` are directives, and `sys` takes two arguments |
| AssemblerProps.DirectiveLine | asm/asm.go:257-298 | a directive line in lower case is compiled by its directive |
| AssemblerProps.SlotsKeys | asm/asm.go:280-289 | the variables defined are the earlier ones and the new names |
| AssemblerProps.SlotsLookup | asm/asm.go:280-289 | distinct names get consecutive slots from the start; other variables keep theirs |
| AssemblerProps.VarLine | asm/asm.go:274-283 | `var a1..an` emits `Push n-1`, forgets all earlier variables and maps ai to i-1 |
| AssemblerProps.ParamLine | asm/asm.go:284-291 | `param` names map from frame size + 1 onwards; it emits nothing and the other variables keep their slots |
| AssemblerProps.ReturnLine | asm/asm.go:292-298 | `return` emits `Ret n` for the last `var`'s n and keeps the variables, so it may appear more than once |
| AssemblerProps.FrameLines | asm/asm.go:274-298 | after `var` and `param`, the locals name slots 0.., the parameters slots n+1.., and `return` pops n cells |
| AssemblerProps.LabelLine | asm/asm.go:226-231 | `name:` records the current pc under the name and emits nothing |
| AssemblerProps.ArityError | asm/asm.go:235-252 | a wrong argument count is rejected before anything else |
| AssemblerProps.ReturnTakesNothing | asm/asm.go:236-239 | `return x` is rejected |
| AssemblerProps.VarNeedsNames | asm/asm.go:240-243 | `var` with no names is rejected |
| AssemblerProps.SysNumber | asm/asm.go:143-166 | a syscall name in any case with a numeric argument succeeds exactly when it fits 48 bits, and packs `(arg << 8) or id` |
| AssemblerProps.SysLabel | asm/asm.go:151-153 | with a label, the id goes in now and the label's offset lands above it at emit time |
| AssemblerProps.SysUnknown | asm/asm.go:147-150 | an unknown syscall name is an error |
| AssemblerProps.StoreFields | asm/asm.go:330-348 | StoreSB succeeds exactly for base and index in [0, 256), packed where the interpreters read them |
| AssemblerProps.IncrSFields | asm/asm.go:349-367 | IncrS succeeds exactly for delta in [-128, 127] and index in [0, 256); the interpreters read back delta as signed byte and the index above it |
| AssemblerProps.IncrRFields | asm/asm.go:368-379 | after resolution the delta is the signed low byte and the label's offset sits above it |
| AssemblerProps.PlainOperand | asm/asm.go:380-391 | a number is the whole operand when it fits 56 bits, an unparsable one is an error, and a label becomes its offset from the instruction |
| AssemblerProps.ResolveArgMeaning | asm/asm.go:306-317 | one argument passes exactly when it is not empty and, starting with a letter, names a variable or is SysS's syscall name; a variable becomes its slot number |
| AssemblerProps.ResolveVarsOk | asm/asm.go:305-318 | variable resolution succeeds exactly when every argument passes |
| AssemblerProps.ResolveVarsAt | asm/asm.go:305-318 | exactly the arguments naming variables are rewritten, each to its slot in decimal |
| AssemblerProps.ResolveVarsEach | asm/asm.go:305-318 | both halves together |
| AssemblerProps.DecimalIsNotLabel | asm/asm.go:312 | a rewritten slot number is never taken for a label |
| AssemblerProps.TableWord | asm/asm.go:300-303 | a name the instruction table finds is neither a label definition nor a directive and takes the instruction's argument count |
| AssemblerProps.InstructionWord | asm/asm.go:232-252 | the same for a name in any case |
| AssemblerProps.InstructionDispatch | asm/asm.go:226-299 | a line that is neither a label definition nor a directive, with the right argument count, is an instruction line |
| AssemblerProps.CompiledInstruction | asm/asm.go:299-304 | a line naming an instruction in any case with its operand count is an instruction line |
| AssemblerProps.StackEncoding | asm/asm.go:305-318 | a stack instruction naming a variable gets the variable's slot as operand |
| AssemblerProps.StackInstruction | asm/asm.go:305-394 | the same for the appended line |
| AssemblerProps.StackVariable | asm/asm.go:226-394 | the same for a whole source line |
| AssemblerProps.UnknownVariable | asm/asm.go:313-316 | a stack instruction naming something that is not a variable is rejected |
| AssemblerProps.ResolveMeaning | asm/asm.go:401-414 | a label must be known and its offset fit the field; a jump operand then leads from the line to the label, and a 48-bit offset keeps the low operand byte |
| AssemblerProps.EmitCodeEach | asm/asm.go:399-421 | `emitCode` succeeds exactly when every line resolves, writes each line's word in order, and otherwise stops at the first failing line with its error |
| AssemblerProps.MissingLabel | asm/asm.go:404-407 | a line naming an unknown label makes `emitCode` fail |
| AssemblerProps.Str8Line | asm/asm.go:265-273 | `str8 text` emits the str8 words of the text's UTF-8 bytes as data, which `emitCode` passes unchanged |
| AssemblerProps.Str8Prints | asm/asm.go:265-273 | those words print back as exactly the text's bytes wherever they sit |
| AssemblerProps.CompileLoads | asm/asm.go:26-56 | compiling succeeds exactly when assembly and label resolution do, and both loaders read back the resolved words |
| AssemblerProps.AsciiLabel | asm/asm.go:139-141 | for an ASCII first character, an argument is a label exactly when it starts with a letter |
| AssemblerProps.FirstByteOnly | asm/asm.go:139-141 | beyond ASCII only the first UTF-8 byte counts, read as Latin-1: a Hebrew letter is not a label, the euro sign is |

## Left out

- Process plumbing: command-line handling, file opening and reading, the output file, logging,
  debug tracing, signal setup, and the profiling and subcommands of `cli/cli.go`. The loaders and
  the assembler's output are pure functions of byte sequences.
- `cvm/loop.c`, a standalone benchmark unrelated to the interpreter.
- Actual output and sleeping. Write's result comes from a `Host` oracle that returns how many bytes
  were taken, and output and sleep are trace events.
- Read failures of the C loader other than a short file, and the allocation failure of `malloc`.
  A file shorter than the header is rejected like a bad header.
- The Go interpreter's run over several files, and the assembler's compile over several files.
  Both are modelled on one input.
- The assembler's partial output file left behind after an error.
- Stack pointer overflow past the 256 cells and accesses outside the program. These are the
  `Undefined` outcome, as are the other cases of undefined behaviour in C.
- Signed overflow of `+`, `-` and `*` in C is undefined by the language. The model wraps it, as the
  compilers the project targets do.
- Go's `Read` syscall has no id in `cpu/syscall.go`, so the Go step does not dispatch it; its effect
  is modelled on its own by `Str8.SysRead`.
- `Enumeration.Lower`: folds ASCII letters only, not the full Unicode case mapping of
  `strings.ToLower`; the assembler's keywords and mnemonics are ASCII.
- `strconv.Unquote` and `strconv.ParseInt` are parameters, not modelled. Where a property needs
  them to behave, it states that as a precondition: for example, that `ParseInt` reads decimal
  numerals back.
- `AssemblerProps.ResolveArgMeaning`: an empty argument is an `EmptyOperand` error. In the source,
  `isAddressLabel` indexes the first byte and panics on it.
- `Assembler.Str8Directive`: the text comes from the `Unquoter` as characters and is encoded with
  `Utf8`, so a literal whose unquoted bytes are not valid UTF-8 is not represented. Examples are
  `str8 "\xff"` and `"\377"`, which Go accepts as the single byte 0xFF. `Lexer.Unquoter` returns
  text for the same reason.
- `LexerProps.Literal`: an empty character literal (when `Unquote` returns nothing) is an error.
  In the source, indexing the first rune panics.
- `Assembler.VarDirective`, `Assembler.ReturnDirective`: the operand range check stands for
  `SetOperand`'s panic on frame sizes of 2^55 or more.
- `Vm.Run`: the run is bounded by a fuel count; `Continue` means the budget ran out.
- `cvm/cvm.h` is not part of this model, so the C interpreter's opcode numbering is the
  enumeration parameter, and its syscall ids are taken to be those of `cpu/syscall.go`.

## Findings

| source | as written | input that shows it | evidently intended | confidence | as-written member | corrected member |
|---|---|---|---|---|---|---|
| cpu/str8.go:29 | the first byte of a str8 is the length minus one | `SerializeStr8("A")` prints nothing when written; `SerializeStr8("hello")` prints `hell` | the first byte is the length, as in asm/asm.go:190 and as the writers at cvm/cvm.c:54-69 and cpu/cpu.go:155-186 read it | not executed; medium (the test at cpu/cpu_test.go:359 also expects byte 0 to be the length) | Str8.CpuStr8DropsLastByte | Str8.AsmStr8WriteRoundTrip |
