# Konfig coursework tools in Dafny

This project models four small programs of the Konfig coursework repository and proves their
behaviour:

- **The register-machine interpreter** (`mirea_homework_4/interpret/interpret.py`). Four
  instruction handlers decode a little-endian instruction word into bit fields, then update a
  register file and a memory. The model has:
  - the word reader;
  - a dispatch loop over a binary program, which the source leaves as a stub. It picks the
    handler and the word length from the low three bits of the next byte;
  - the memory dump as `ID,VALUE` rows.

  The handlers are specified on a value (`Interpreter.Machine`) by the `Apply…` functions. The
  class `Interpreter.Vm` keeps the registers and the memory in arrays, as the source does. Its
  methods are proved to update them as those functions say. `ExecuteBinaryFile`'s loop is
  proved against the functional run `Interpreter.Run`.
- **The assembler** (`mirea_homework_4/assemble/assemble.py`). The model has:
  - the four encoders;
  - the trace-log lines;
  - `parse_file`'s line parser and its loop, which stops at the first exception.

  The encoders place each field at the offsets the interpreter reads, counted from the least
  significant bit. With that reading, every encoded instruction decodes back to itself. The
  encoders as literally written (big-endian `bitarray` bit order, and a `0xE0` first byte for
  LOAD_CONSTANT) are modelled as well. The two mismatches are logged under "## Findings".
  `Pipeline` connects the two tools: assembling some lines and running the bytes executes
  exactly the parsed instructions, in order.
- **The YAML-to-configuration translator** (`mirea_homework_3/config_translator.py`). The model
  has:
  - the name rule of `validate_name`;
  - `translate_value`'s rendering of a loaded value tree (numbers, strings, `^name` constant
    references, lists, mappings with indentation);
  - `translate`'s walk over the top-level keys. A numeric value becomes a constant only after
    its own line is rendered.

  `ConfigTranslator.Translator.Translate` is the loop, with the constants table as a field.
  It is proved equal to the functional `TranslateDocument`.
- **The shell emulator's path and ownership logic** (`mirea_homework_1/emulator.py`). The model
  has:
  - `cd` over POSIX-style paths;
  - `directory_exists` and `list_files` over the archive's member names, which match by text
    prefix;
  - the owner table that `chown` updates;
  - `execute_command`'s dispatch.

  `Shell.Emulator` holds the current directory and the owner table as fields.

The `*Scenarios` modules replay the repository's own unit tests on the model.

Arithmetic is on unbounded integers, as in Python. These Python semantics are modelled
explicitly:

- `int()` accepts a sign, and underscores between digits;
- `str.split()` splits on Python's whitespace set;
- `str.replace`, `lstrip` and `rstrip` behave as in Python;
- `posixpath.dirname` and `posixpath.join` behave as in Python;
- a negative list index counts from the end, and is an `IndexError` beyond the start;
- `|` is bitwise OR on unbounded integers;
- the regular-expression `$` accepts one trailing newline.

Where the repository's documentation and its code disagree, the model follows the code:

- The interpreter test writes `LOAD_CONSTANT R0 #52` (no comma) and
  `MEMORY_WRITE [R31 + 0], R0`. As `parse_file` is written, neither line parses: the first
  fails on `int("")`. The second fails on `int("],")`, because `int(reg[1:])` is evaluated
  first and `reg` is the word `0],`. `AssemblerScenarios` proves both failures.
  The end-to-end scenario (`PipelineScenarios.WriteTest`) runs the two instructions those
  lines stand for.
- That test's MEMORY_WRITE stores `R0` at `R31 + 0`. R31 is 0, so the dump row is `0,52`,
  not a row for address 31.
- `cd /` sets the current directory to `/`. It still answers through `directory_exists("/")`,
  which strips the path to the empty text and finds a member only if some stripped name is
  empty or starts with `/`.
- `list_files` compares names by text prefix, not by path component. It also lists files of
  subdirectories, under their relative path.
- MEMORY_WRITE and OR index the memory with `R[x] + offset`. Python accepts a negative index
  there. The model keeps this, and turns an index below `-len(memory)` into a fault.

## Model

| member | source | states |
|---|---|---|
| Text.Split | mirea_homework_4/assemble/assemble.py:84 | `str.split()` yields only non-empty words free of whitespace |
| Text.SplitJoin | mirea_homework_4/assemble/assemble.py:84 | splitting words joined by single spaces gives back exactly those words |
| Text.ParseIntToString | mirea_homework_4/assemble/assemble.py:89 | `int(str(i)) == i` for every int |
| Text.ParseIntAccepts | mirea_homework_4/assemble/assemble.py:89 | `int()` accepts only numerals: ASCII digits, inner underscores and one leading sign, ending in a digit; an empty text, a lone sign, whitespace and any other character are refused |
| Text.ReplaceAbsent | mirea_homework_1/emulator.py:91 | `replace` leaves a text holding no occurrence of the pattern unchanged |
| Text.ReplaceLeading | mirea_homework_1/emulator.py:91 | an occurrence at the start is replaced, and the search goes on after it |
| Text.LStrip | mirea_homework_1/emulator.py:72 | `lstrip(c)` removes exactly the leading run of `c`: the result is a suffix, everything removed is `c`, and the result does not start with `c` |
| Text.RStrip | mirea_homework_1/emulator.py:55 | `rstrip(c)` removes exactly the trailing run of `c` |
| Text.RStripAppended | mirea_homework_1/emulator.py:55 | stripping `c` from a text plus one `c` gives the text back when it does not end in `c` |
| Text.DropFirst | mirea_homework_4/assemble/assemble.py:88 | `s[1:]` is `s` without its first character, and empty for an empty `s` |
| Text.DropLast | mirea_homework_4/assemble/assemble.py:87 | `s[:-1]` is `s` without its last character, and empty for an empty `s` |
| Bits.Field | mirea_homework_4/interpret/interpret.py:54-56 | `(code >> offset) & (2^width - 1)` is below `2^width` |
| Bits.FieldOfLayout | mirea_homework_4/interpret/interpret.py:54-56 | a field placed at an offset with a given width is extracted back unchanged, whatever the bits around it |
| Bits.FromLittleEndian | mirea_homework_4/interpret/interpret.py:50 | `int.from_bytes(bytes, "little")` of `n` bytes is below `2^(8n)` |
| Bits.LittleEndianRoundTrip | mirea_homework_4/interpret/interpret.py:50 | a value below `2^(8n)` written as `n` little-endian bytes reads back unchanged |
| Bits.LittleEndianBytesRoundTrip | mirea_homework_4/interpret/interpret.py:50 | reading bytes as a little-endian int and writing it back in as many bytes gives the same bytes |
| Bits.LowBitsOfFirstByte | mirea_homework_4/interpret/interpret.py:54 | the 3-bit tag of a little-endian word is the low three bits of its first byte |
| Bits.BitOrBits | mirea_homework_4/interpret/interpret.py:89 | bit `k` of `a \| b` is set iff it is set in `a` or in `b`, for negative ints too |
| Bits.BitOrBound | mirea_homework_4/interpret/interpret.py:89 | the OR of two values below `2^n` is non-negative and below `2^n` |
| Isa.DecodeLoadConstant | mirea_homework_4/interpret/interpret.py:54-56 | LOAD_CONSTANT reads a 24-bit value and a 7-bit register |
| Isa.DecodeMemoryRead | mirea_homework_4/interpret/interpret.py:63-65 | MEMORY_READ reads a 7-bit register and a 25-bit address |
| Isa.DecodeMemoryWrite | mirea_homework_4/interpret/interpret.py:73-76 | MEMORY_WRITE reads two 7-bit registers and a 14-bit offset |
| Isa.DecodeBitwiseOr | mirea_homework_4/interpret/interpret.py:84-87 | OR reads a 14-bit offset and two 7-bit registers |
| Isa.Decode | mirea_homework_4/interpret/interpret.py:52-89 | the handler a tag selects yields an instruction of that tag whose fields all fit their widths |
| Interpreter.ListIndex | mirea_homework_4/interpret/interpret.py:78 | a Python list index is valid iff `-len <= i < len`, and a negative index denotes `i + len` |
| Interpreter.ApplyLoadConstant | mirea_homework_4/interpret/interpret.py:52-59 | register C becomes B; every other register and all of memory are unchanged |
| Interpreter.ApplyMemoryRead | mirea_homework_4/interpret/interpret.py:61-67 | for an address inside memory, R[B] becomes M[C] and the other registers are kept; otherwise nothing changes; memory never changes |
| Interpreter.ApplyMemoryWrite | mirea_homework_4/interpret/interpret.py:71-78 | with C a register and R[C]+D inside memory, that cell becomes R[B] and no other cell changes; C out of range or an address past the end changes nothing; an address below `-len(memory)` is an IndexError; registers never change |
| Interpreter.ApplyBitwiseOr | mirea_homework_4/interpret/interpret.py:82-89 | with C and D registers and R[D]+B inside memory, R[C] becomes `R[C] \| M[R[D]+B]` and no other register changes; otherwise nothing changes, or an IndexError below `-len(memory)`; memory never changes |
| Interpreter.Execute | mirea_homework_4/interpret/interpret.py:52-89 | executing an instruction keeps the 128-register file and the memory size |
| Interpreter.BitwiseOrKeepsBits | mirea_homework_4/interpret/interpret.py:89 | after OR, R[C] keeps every bit it had and gains only bits of the memory cell |
| Interpreter.ExecuteKeepsBounded | mirea_homework_4/interpret/interpret.py:52-89 | from a state where all values are in [0, 2^24), every instruction succeeds and keeps them there, so computed addresses are never negative |
| Interpreter.MemoryWriteKeepsBounded | mirea_homework_4/interpret/interpret.py:71-78 | MEMORY_WRITE succeeds and keeps every value in [0, 2^24) |
| Interpreter.BitwiseOrKeepsBounded | mirea_homework_4/interpret/interpret.py:82-89 | OR succeeds and keeps every value in [0, 2^24) |
| Interpreter.ReadBitset | mirea_homework_4/interpret/interpret.py:44-50 | a word is read iff `(bit_count + 7) // 8` bytes remain; it is those bytes combined little-endian, never a partial word |
| Interpreter.StepAt | mirea_homework_4/interpret/interpret.py:21-23 | one turn of the dispatch loop consumes a non-empty word that fits in the program and keeps the state well formed and the memory size |
| Interpreter.Run | mirea_homework_4/interpret/interpret.py:21-23 | running a program keeps the state well formed and the memory size |
| Interpreter.StepOfWord | mirea_homework_4/interpret/interpret.py:44-50 | a complete word with a known tag is decoded by that tag's handler and executed, consuming `(bits + 7) // 8` bytes |
| Interpreter.StepOfPrefix | mirea_homework_4/interpret/interpret.py:21-23 | a word is read the same whatever bytes follow it |
| Interpreter.RunNext | mirea_homework_4/interpret/interpret.py:21-23 | a run executes the first word, then runs the rest of the program from the new state |
| Interpreter.RunStop | mirea_homework_4/interpret/interpret.py:21-23 | a fault on the first word stops the run with the state unchanged |
| Interpreter.ResumeAt | mirea_homework_4/interpret/interpret.py:21-23 | the loop's invariant: after one more word, the whole run equals the run resumed after that word |
| Interpreter.RunAppend | mirea_homework_4/interpret/interpret.py:21-23 | running two programs in sequence equals running them concatenated, when the first halts |
| Interpreter.RunKeepsBounded | mirea_homework_4/interpret/interpret.py:52-89 | from a state with all values in [0, 2^24), a run never raises IndexError and ends in such a state |
| Interpreter.TruncatedProgram | mirea_homework_4/interpret/interpret.py:48-49 | fewer than four bytes starting with a known tag end in `EOFError`, with nothing executed |
| Interpreter.NoCommaInNumber | mirea_homework_4/interpret/interpret.py:32 | a rendered number holds no comma, so the report's separator is unambiguous |
| Interpreter.ParseRowOfRow | mirea_homework_4/interpret/interpret.py:32 | a report row `address,value` reads back as that address and value |
| Interpreter.RowsAt | mirea_homework_4/interpret/interpret.py:29-32 | row `k` of the dump is the row of address `start + k` |
| Interpreter.RowsLength | mirea_homework_4/interpret/interpret.py:29-32 | the dump has one row per address of the range |
| Interpreter.DumpRow | mirea_homework_4/interpret/interpret.py:29-32 | line `k` of a dump is the row of address `start + k - 1` |
| Interpreter.DumpReadsBack | mirea_homework_4/interpret/interpret.py:29-32 | the dump is refused iff start > end; otherwise it is the header `ID,VALUE` and one row per address, each reading back as its address and cell value |
| Interpreter.Vm.constructor | mirea_homework_4/interpret/interpret.py:7 | a new VM has 128 zero registers, the given number of zero memory cells, the given debug flag and an empty trace |
| Interpreter.Vm.LoadConstantFromCode | mirea_homework_4/interpret/interpret.py:52-59 | updates the register array as ApplyLoadConstant says and prints the debug line only in debug mode |
| Interpreter.Vm.MemoryReadFromCode | mirea_homework_4/interpret/interpret.py:61-69 | updates the register array as ApplyMemoryRead says and prints the debug line only in debug mode |
| Interpreter.Vm.MemoryWriteFromCode | mirea_homework_4/interpret/interpret.py:71-80 | updates the memory array as ApplyMemoryWrite says, or reports its fault with nothing changed |
| Interpreter.Vm.BitwiseOrFromCode | mirea_homework_4/interpret/interpret.py:82-91 | updates the register array as ApplyBitwiseOr says, or reports its fault with nothing changed |
| Interpreter.Vm.ExecuteWord | mirea_homework_4/interpret/interpret.py:52-91 | dispatches a word to its tag's handler with the effect of Execute |
| Interpreter.Vm.ExecuteNextWord | mirea_homework_4/interpret/interpret.py:44-50 | reads and executes the word at a position, as StepAt says |
| Interpreter.Vm.ResumeNextWord | mirea_homework_4/interpret/interpret.py:21-23 | one iteration of the loop keeps its invariant: the run from the start equals the run resumed here, and the trace holds the debug lines of the words executed |
| Interpreter.Vm.ExecuteBinaryFile | mirea_homework_4/interpret/interpret.py:21-23 | executing a program in place leaves the registers and memory of Run, reports its outcome, and prints one debug line per executed word in debug mode |
| Assembler.LoadConstantLayout | mirea_homework_4/assemble/assemble.py:36-43 | the LOAD_CONSTANT word is 40 bits: tag 0, value at [3,27), register at [27,34) |
| Assembler.MemoryReadLayout | mirea_homework_4/assemble/assemble.py:47-51 | the MEMORY_READ word is 40 bits: tag 7, register at [3,10), address at [10,35) |
| Assembler.MemoryWriteLayout | mirea_homework_4/assemble/assemble.py:57-62 | the MEMORY_WRITE word is 32 bits: tag 1, source at [3,10), base at [10,17), offset at [17,31) |
| Assembler.BitwiseOrLayout | mirea_homework_4/assemble/assemble.py:68-73 | the OR word is 32 bits: tag 3, offset at [3,17), destination at [17,24), base at [24,31) |
| Assembler.DecodeWord | mirea_homework_4/assemble/assemble.py:47-73 | the interpreter's handler decodes an encoded word back to the same instruction |
| Assembler.Encode | mirea_homework_4/assemble/assemble.py:47-73 | an encoded word has the tag's length, carries the tag in its first byte and reads back as the word |
| Assembler.DecodeEncode | mirea_homework_4/assemble/assemble.py:47-73 | round trip: the interpreter reads the encoded bytes as the same instruction, with the right length |
| Assembler.EncodeLoadConstant | mirea_homework_4/assemble/assemble.py:36-43 | 5 bytes with tag 0 that decode to the value masked to 24 bits and the register masked to 7 bits; excess bits are dropped, not rejected |
| Assembler.EncodeMemoryRead | mirea_homework_4/assemble/assemble.py:47-51 | succeeds iff the register fits 7 bits and the address 25 bits; then 5 bytes with tag 7 and both fields in place |
| Assembler.EncodeMemoryWrite | mirea_homework_4/assemble/assemble.py:57-62 | succeeds iff the registers fit 7 bits and the offset 14 bits; then 4 bytes with tag 1 and all fields in place |
| Assembler.EncodeBitwiseOr | mirea_homework_4/assemble/assemble.py:68-73 | succeeds iff the offset fits 14 bits and the registers 7 bits; then 4 bytes with tag 3 and all fields in place |
| Assembler.Emit | mirea_homework_4/assemble/assemble.py:36-77 | an instruction is written iff it is LOAD_CONSTANT or its fields fit; the bytes decode to the instruction stored |
| Assembler.LogLine | mirea_homework_4/assemble/assemble.py:54-55 | LOAD_CONSTANT logs nothing; every other instruction logs one line |
| Assembler.LogLineReadsBack | mirea_homework_4/assemble/assemble.py:47-77 | a log line is the mnemonic with a colon, then `B`, `C` (and `D`), each with `=` and a number that reads back as that operand |
| Assembler.Int | mirea_homework_4/assemble/assemble.py:89 | `int(text)` succeeds only on whitespace-free ASCII numerals, fails only with `ValueError`, and reads every rendered int `str(n)` back as `n` |
| Assembler.SplitSourceLine | mirea_homework_4/assemble/assemble.py:84 | `split()` cuts the line written for an instruction into exactly the words the slices expect |
| Assembler.ParseLoadConstantSource | mirea_homework_4/assemble/assemble.py:86-89 | the LOAD_CONSTANT branch reads `R<c>, #<b>` back as `LoadConstant(b, c)` for every b and c |
| Assembler.ParseMemoryReadSource | mirea_homework_4/assemble/assemble.py:90-93 | the MEMORY_READ branch reads `R<c>, [<a>]` back as `MemoryRead(c, a)` for every c and a |
| Assembler.ParseMemoryWriteSource | mirea_homework_4/assemble/assemble.py:94-98 | the MEMORY_WRITE branch reads `[R<c>] <d> R<b>` back as `MemoryWrite(b, c, d)` for every b, c and d |
| Assembler.ParseBitwiseOrSource | mirea_homework_4/assemble/assemble.py:99-103 | the OR branch reads `R<c>, [<d> <b>]` back as `BitwiseOr(b, c, d)` for every b, c and d |
| Assembler.ParseSourceLine | mirea_homework_4/assemble/assemble.py:84-103 | round trip of the line parser: for all operand values, `LOAD_CONSTANT R<c>, #<b>`, `MEMORY_READ R<c>, [<a>]`, `MEMORY_WRITE [R<c>] <d> R<b>` and `OR R<c>, [<d> <b>]` parse to the instruction they were written from |
| Assembler.Shares | mirea_homework_4/assemble/assemble.py:83-103 | every input line contributes its own share of bytes and log lines, in order |
| Assembler.CollectStep | mirea_homework_4/assemble/assemble.py:83-103 | a line that assembles appends its bytes and log lines, then processing goes on |
| Assembler.CollectStop | mirea_homework_4/assemble/assemble.py:104-105 | the first failing line stops processing and keeps what earlier lines wrote |
| Assembler.CollectEnd | mirea_homework_4/assemble/assemble.py:83 | after the last line, the output is complete and no error is raised |
| Assembler.CollectAppend | mirea_homework_4/assemble/assemble.py:81-105 | assembling two blocks of lines is assembling the first, then the second only if the first raised nothing |
| Assembler.AssembleAppend | mirea_homework_4/assemble/assemble.py:81-105 | the same for the lines of a file: a failure stops every later line |
| Assembler.SharesAppend | mirea_homework_4/assemble/assemble.py:83-103 | the shares of concatenated lines are the concatenated shares |
| Assembler.Assembler.constructor | mirea_homework_4/assemble/assemble.py:8-11 | a new assembler has written no bytes and no log lines |
| Assembler.Assembler.AssembleNextLine | mirea_homework_4/assemble/assemble.py:84-103 | one line appends its bytes and log lines, or reports the exception with nothing written |
| Assembler.Assembler.ParseFile | mirea_homework_4/assemble/assemble.py:79-105 | the loop appends exactly AssembleLines' bytes and log lines and reports its first failure |
| Assembler.BigEndianBits | mirea_homework_4/assemble/assemble.py:50 | `int2ba(v, length=w, endian='big')` puts bit `w-1-k` of `v` at position `k` |
| Assembler.Overwrite | mirea_homework_4/assemble/assemble.py:50-51 | slice assignment replaces exactly the positions of the slice |
| Assembler.PackBits | mirea_homework_4/assemble/assemble.py:31-34 | a bitarray is written as one byte per eight bits |
| Assembler.LeadingZeros | mirea_homework_4/assemble/assemble.py:49 | a value below `2^n`, written big-endian in `w` bits, starts with `w - n` zero bits |
| Assembler.FirstByteClear | mirea_homework_4/assemble/assemble.py:31-34 | a bitarray starting with eight zero bits is written with a zero first byte |
| Assembler.MemoryReadFirstByte | mirea_homework_4/assemble/assemble.py:47-52 | as written, `memory_read(0, 0)` writes a zero first byte |
| Assembler.MemoryWriteFirstByte | mirea_homework_4/assemble/assemble.py:57-63 | as written, `memory_write(0, 0, 0)` writes a zero first byte |
| Assembler.BitwiseOrFirstByte | mirea_homework_4/assemble/assemble.py:68-74 | as written, `bitwise_or(0, 0, 0)` writes a zero first byte |
| Assembler.PackedTag | mirea_homework_4/assemble/assemble.py:31-34 | the tag the interpreter reads from a packed big-endian bitarray is its bits 5, 6 and 7 |
| Assembler.AsWrittenMemoryReadTag | mirea_homework_4/assemble/assemble.py:47-52 | as written, MEMORY_READ's first byte carries `(B // 4) % 8`, bits 2 to 4 of the register, as its tag instead of 7 |
| Assembler.AsWrittenMemoryWriteTag | mirea_homework_4/assemble/assemble.py:57-63 | as written, MEMORY_WRITE's first byte carries `(B // 4) % 8` as its tag instead of 1 |
| Assembler.AsWrittenBitwiseOrTag | mirea_homework_4/assemble/assemble.py:68-74 | as written, OR's first byte carries `(B // 512) % 8`, bits 9 to 11 of the offset, as its tag instead of 3 |
| Assembler.AsWrittenTagsMisread | mirea_homework_4/assemble/assemble.py:47-73 | as written, the all-zero MEMORY_READ, MEMORY_WRITE and OR words start with a zero byte, which the interpreter executes as LOAD_CONSTANT |
| Assembler.AsWrittenMemoryReadMisread | mirea_homework_4/assemble/assemble.py:47-52 | as written, a MEMORY_READ whose register has bits 2 to 4 equal to `001`, R5 among them, carries tag 1 and executes as a MEMORY_WRITE |
| Assembler.AsWrittenLoadConstant | mirea_homework_4/assemble/assemble.py:36-43 | `load_constant` as written: 5 bytes, `0xE0`, the low 24 bits of B big-endian, then C masked to 7 bits |
| Assembler.AsWrittenLoadConstantMisread | mirea_homework_4/assemble/assemble.py:36-43 | a `0xE0` word reads as LOAD_CONSTANT, but the low five bits of the value decoded are always 28 |
| Assembler.AsWrittenLoadConstantExample | mirea_homework_4/tests/tests.py:22 | `LOAD_CONSTANT R22, #482`, encoded as written, does not decode to that instruction |
| AssemblerScenarios.ParseLoadConstantLine | mirea_homework_4/assemble/assemble.py:86-89 | `LOAD_CONSTANT R22, #482` calls `load_constant(482, 22)`: value first, register second |
| AssemblerScenarios.LoadConstantParts | mirea_homework_4/assemble/assemble.py:86-89 | the slices of `R22,` and `#482` give register 22 and value 482 |
| AssemblerScenarios.ParseMemoryReadLine | mirea_homework_4/assemble/assemble.py:90-93 | `MEMORY_READ R5, [100]` calls `memory_read(5, 100)` |
| AssemblerScenarios.MemoryReadParts | mirea_homework_4/assemble/assemble.py:90-93 | the slices of `R5,` and `[100]` give register 5 and address 100 |
| AssemblerScenarios.ParseSpacedMemoryWrite | mirea_homework_4/tests/tests.py:55 | the test's `MEMORY_WRITE [R31 + 0], R0` raises a ValueError in the parser |
| AssemblerScenarios.SpacedMemoryWriteParts | mirea_homework_4/assemble/assemble.py:94-98 | with `0],` as the register word, the first call `int("],")` fails |
| AssemblerScenarios.ParseTightMemoryWrite | mirea_homework_4/assemble/assemble.py:94-98 | `MEMORY_WRITE [R31] 0 R0`, the form the parser expects, stores R0 at R31 + 0 |
| AssemblerScenarios.TightMemoryWriteParts | mirea_homework_4/assemble/assemble.py:94-98 | the slices of `[R31]`, `0` and `R0` give base 31, offset 0 and source 0 |
| AssemblerScenarios.ParseLoadConstantWithoutComma | mirea_homework_4/tests/tests.py:54 | the test's `LOAD_CONSTANT R0 #52` raises a ValueError in the parser |
| AssemblerScenarios.LoadConstantWithoutCommaParts | mirea_homework_4/assemble/assemble.py:86-89 | without the comma, `R0`'s slices leave an empty register number |
| AssemblerScenarios.ParseShortLines | mirea_homework_4/assemble/assemble.py:84-103 | an empty line and a line missing operands raise; an unknown mnemonic is skipped |
| Pipeline.ExecuteAll | mirea_homework_4/interpret/interpret.py:52-91 | executing instructions in order runs a prefix of them, and halts iff it runs them all |
| Pipeline.EmittedWordSteps | mirea_homework_4/interpret/interpret.py:44-50 | the interpreter reads an emitted word as the stored instruction, whatever follows it |
| Pipeline.StoredFits | mirea_homework_4/assemble/assemble.py:36-43 | every instruction as stored fits its fields |
| Pipeline.RunOfBinary | mirea_homework_4/assemble/assemble.py:83-103 | running the concatenated words executes the stored instructions one by one |
| Pipeline.AssembledBinary | mirea_homework_4/assemble/assemble.py:79-105 | when no line fails, the output is the concatenated words of the parsed instructions |
| Pipeline.AssembleThenRun | mirea_homework_4/assemble/assemble.py:79-105 | assembling then running executes exactly the parsed instructions, in order |
| PipelineScenarios.WriteAfterLoad | mirea_homework_4/tests/tests.py:51-76 | LOAD_CONSTANT 52 into R0 and then MEMORY_WRITE R0 to R31 + 0 halts with 52 in cell 0 |
| PipelineScenarios.DumpAfterWrite | mirea_homework_4/interpret/interpret.py:29-32 | that memory dumps over [0, 2) as `ID,VALUE`, `0,52`, `1,0` |
| PipelineScenarios.WriteTest | mirea_homework_4/tests/tests.py:51-76 | the report starts with `ID,VALUE` and then `0,52` |
| PipelineScenarios.ZeroRows | mirea_homework_4/interpret/interpret.py:29-32 | zeroed memory dumps over [0, 3) as three `n,0` rows |
| PipelineScenarios.ZeroReportText | mirea_homework_4/interpret/interpret.py:30 | the report text ends every line with a newline |
| PipelineScenarios.EmptyReport | mirea_homework_4/interpret/interpret.py:25-36 | the report of zeroed memory over [0, 3) is `ID,VALUE\n0,0\n1,0\n2,0\n` |
| ConfigTranslator.MatchesNameIff | mirea_homework_3/config_translator.py:12-16 | a name matches iff it is a letter or `_` followed by letters, digits and `_`, optionally followed by one newline |
| ConfigTranslator.ValidateName | mirea_homework_3/config_translator.py:12-16 | raises `Invalid name` iff the name does not match |
| ConfigTranslator.Spaces | mirea_homework_3/config_translator.py:20 | `" " * n` is `n` spaces |
| ConfigTranslator.TranslateItems | mirea_homework_3/config_translator.py:23-25 | a list renders one text per item |
| ConfigTranslator.TranslateEntries | mirea_homework_3/config_translator.py:26-31 | a mapping renders one line per entry |
| ConfigTranslator.TranslateValueOk | mirea_homework_3/config_translator.py:18-42 | rendering succeeds iff the value is renderable: no `None`, no undefined reference, no invalid nested key |
| ConfigTranslator.TranslateItemsOk | mirea_homework_3/config_translator.py:23-25 | a list renders iff every item does |
| ConfigTranslator.TranslateEntriesOk | mirea_homework_3/config_translator.py:26-31 | a mapping renders iff every key is a valid name and every value renders |
| ConfigTranslator.ItemsRendered | mirea_homework_3/config_translator.py:24 | item `i` of a list renders as that item does on its own, at indent 0 |
| ConfigTranslator.EntriesRendered | mirea_homework_3/config_translator.py:27-30 | entry `i` renders as indent plus four spaces, `key = value`, with the value at indent + 4 and the key validated |
| ConfigTranslator.IntegerRoundTrip | mirea_homework_3/config_translator.py:21-22 | an integer renders as a decimal that `int()` reads back |
| ConfigTranslator.ReferenceRendersValue | mirea_homework_3/config_translator.py:33-38 | `^name` renders as the constant's value |
| ConfigTranslator.TranslateTopAgrees | mirea_homework_3/config_translator.py:55-64 | a top-level value renders as `translate_value` renders it, after the key is validated |
| ConfigTranslator.DocumentCons | mirea_homework_3/config_translator.py:55-66 | the first entry's line comes first, then the rest is translated with that entry's constant stored |
| ConfigTranslator.DocumentLines | mirea_homework_3/config_translator.py:54-69 | a successful translation has one line per top-level key, in order, each starting with `key is ` |
| ConfigTranslator.DocumentConstants | mirea_homework_3/config_translator.py:65-66 | afterwards the constants are the earlier ones plus exactly the keys with numeric values |
| ConfigTranslator.UndefinedReferenceStops | mirea_homework_3/config_translator.py:57-60 | a top-level reference to an undefined constant raises `Undefined constant` |
| ConfigTranslator.ReferenceFirst | mirea_homework_3/config_translator.py:57-61 | a top-level reference to a defined constant renders its value |
| ConfigTranslator.DefinitionThenReference | mirea_homework_3/config_translator.py:55-66 | a number followed by a reference to it renders the number twice, once per line |
| ConfigTranslator.Translator.constructor | mirea_homework_3/config_translator.py:7-10 | a new translator has no constants |
| ConfigTranslator.Translator.Translate | mirea_homework_3/config_translator.py:49-69 | the loop leaves the constants of TranslateDocument and returns its lines joined by newlines, or its error |
| ConfigScenarios.ListText | mirea_homework_3/test_config_translator.py:62 | `[1, 2, 3]` renders as `( 1, 2, 3 )` |
| ConfigScenarios.DictText | mirea_homework_3/test_config_translator.py:63-66 | `{key1: value1, key2: value2}` renders as a braced block with one indented line per key |
| ConfigScenarios.SimpleTranslation | mirea_homework_3/test_config_translator.py:33-45 | `name: example`, `value: 42` translate to `name is example`, `value is 42` |
| ConfigScenarios.NestedStructures | mirea_homework_3/test_config_translator.py:47-67 | the list and the mapping translate to the expected text |
| ConfigScenarios.Constants | mirea_homework_3/test_config_translator.py:69-81 | `constant: 100`, `reference: ^constant` translate to `constant is 100`, `reference is 100` |
| ConfigScenarios.InvalidKey | mirea_homework_3/test_config_translator.py:83-92 | `invalid-name` raises `Invalid name` |
| ConfigScenarios.NotAName | mirea_homework_3/config_translator.py:14 | `invalid-name` does not match the name pattern |
| ConfigScenarios.UndefinedReference | mirea_homework_3/test_config_translator.py:94-103 | `^undefined_constant` raises `Undefined constant` |
| ConfigScenarios.ComplexCase | mirea_homework_3/test_config_translator.py:105-127 | a constant used inside a nested list and a nested mapping translates to the expected text |
| Shell.CdAbsolutePath | mirea_homework_1/emulator.py:60-68 | `cd /path` moves to the path as written and answers whether it exists |
| Shell.ChildThenParent | mirea_homework_1/emulator.py:53-63 | `cd name` then `cd ..` comes back to the starting directory |
| Shell.MemberDirectoryExists | mirea_homework_1/emulator.py:70-76 | every directory on a member's path exists |
| Shell.CdIntoMemberDirectory | mirea_homework_1/emulator.py:60-68 | `cd` into a directory on a member's path succeeds and moves there |
| Shell.ListedFilesSnoc | mirea_homework_1/emulator.py:81-84 | one more member adds its own entry at the end of the listing |
| Shell.ListedFilesAppend | mirea_homework_1/emulator.py:81-84 | the listing of two member lists is their listings concatenated, in member order |
| Shell.ListedFilesIff | mirea_homework_1/emulator.py:78-86 | a name is listed iff some non-directory member shows under it in the directory |
| Shell.ShownIff | mirea_homework_1/emulator.py:82-84 | a member contributes a name iff it is a non-directory under the directory, with that relative name |
| Shell.RootShowsTopFile | mirea_homework_1/emulator.py:82-84 | at `/`, a file member is listed under its own name |
| Shell.InitialOwnersOf | mirea_homework_1/emulator.py:31-32 | the owner table has exactly the members' names, each owned by `default_owner` |
| Shell.DispatchFrame | mirea_homework_1/emulator.py:88-134 | only `cd` changes the directory, only a well-formed `chown` of a known file changes the owner table and only that entry, and the set of known files never changes |
| Shell.BlankCommand | mirea_homework_1/emulator.py:91-96 | a blank command answers `cd: аргумент отсутствует` and changes nothing |
| Shell.ChownWrongArity | mirea_homework_1/emulator.py:114-116 | `chown` without exactly two arguments answers with the arity error and changes nothing |
| Shell.UnknownCommand | mirea_homework_1/emulator.py:130-131 | any other command answers `Команда X выполнена` and changes nothing |
| Shell.Emulator.constructor | mirea_homework_1/emulator.py:9-15 | a new emulator is at `/`, with every member owned by `default_owner` |
| Shell.Emulator.DirectoryExists | mirea_homework_1/emulator.py:70-76 | the scan answers true iff some stripped member name is the stripped path or starts with it plus `/` |
| Shell.Emulator.ListFiles | mirea_homework_1/emulator.py:78-86 | the scan returns the listed names joined by newlines, or the no-files message |
| Shell.Emulator.ChangeDirectory | mirea_homework_1/emulator.py:49-68 | moves to CdTarget and answers CdReply |
| Shell.Emulator.ChangeOwner | mirea_homework_1/emulator.py:136-141 | answers true iff the file is known; then only its owner changes, otherwise nothing does |
| Shell.Emulator.ExecuteCommand | mirea_homework_1/emulator.py:88-134 | the reply and the new directory and owners are Dispatch's |
| ShellScenarios.DispatchCd | mirea_homework_1/emulator.py:100-104 | `cd x` answers and moves as `change_directory` does |
| ShellScenarios.DispatchLs | mirea_homework_1/emulator.py:106-107 | `ls` lists the current directory and changes nothing |
| ShellScenarios.DispatchChown | mirea_homework_1/emulator.py:114-122 | `chown f o` grants a known file to `o`, or reports it missing with nothing changed |
| ShellScenarios.ListRoot | mirea_homework_1/tests/test_emulator.py:11-13 | `ls` at `/` lists `file.txt` |
| ShellScenarios.CdAbsolute | mirea_homework_1/tests/test_emulator.py:16-18 | `cd /subdir` moves to `/subdir` |
| ShellScenarios.CdRelative | mirea_homework_1/tests/test_emulator.py:21-23 | `cd subdir` from `/` moves to `/subdir` |
| ShellScenarios.CdInvalid | mirea_homework_1/tests/test_emulator.py:26-28 | `cd /nonexistent` answers `cd: нет такого каталога: /nonexistent` and still moves there |
| ShellScenarios.CdParent | mirea_homework_1/tests/test_emulator.py:31-34 | `cd ..` from `/subdir` moves to `/` |
| ShellScenarios.CdDotDot | mirea_homework_1/emulator.py:91 | `cd..` is rewritten to `cd ..` before splitting, so it answers and moves exactly as `cd ..` does |
| ShellScenarios.CalendarMonth | mirea_homework_1/emulator.py:109-112 | `cal` shows November 2024 and changes nothing |
| ShellScenarios.ChownValid | mirea_homework_1/tests/test_emulator.py:42-44 | `chown file.txt new_owner` grants `file.txt` to `new_owner` |
| ShellScenarios.ChownMissingOwner | mirea_homework_1/tests/test_emulator.py:47-49 | `chown file.txt` answers with the arity error |
| ShellScenarios.ChownUnknownFile | mirea_homework_1/tests/test_emulator.py:52-54 | `chown nonexistent_file new_owner` answers that the file is not found |

## Left out

- File and console I/O is not modelled:
  - opening the input, output, binary, log and report files;
  - `print`;
  - `argparse`;
  - the CLI wrappers.

  Programs, lines and value trees are parameters. Outputs are the byte, line and text
  sequences the model builds (`binary`, `log`, `trace`, the report lines).
- `Assemble.__init__` and `Assemble.assemble`: they are a stub that writes the single byte
  `0x10`, and the assembler test expects that byte. Neither is modelled.
- `write_bitset_to_binary_file` refers to an attribute that is never set, and reopens the file
  for each instruction. The model appends each instruction's bytes to one output instead.
- `Interpret.__init__` and the file handling of `save_memory_to_csv`, whose body writes a fixed
  `0,52` row. The model has the dump as a pure function of memory and a range.
  - The source never fixes three choices of that dump. The model refuses a range whose start
    is past its end, reads cells outside memory as 0, and dumps the half-open range
    [start, end), without the cell at `end`.
- The interpreter never initialises its registers, its memory or `debug`. The model uses 128
  registers (register indices are 7 bits) and a memory size chosen by the caller, all zero.
- `debug_output` (the register and memory listing) is not modelled. The handlers' debug
  prints are modelled as lines appended to `trace`.
- `execute_binary_file` is a stub in the source. The model's dispatch loop is built from the
  handlers and the word reader:
  - tags 0 and 7 read 5-byte words;
  - tags 1 and 3 read 4-byte words;
  - other tags are a fault.
- The emulator's `load_vfs` (opening the tar archive) is not modelled. The model takes the
  archive's members as a list of names with a directory flag.
- The emulator's `log_command` (a JSON log with timestamps) and the log-file creation in
  `__init__` are not modelled.
- `cal`'s calendar text comes from the calendar library and is not modelled. The reply records
  only the year and month.
- `exit` terminates the process, which is not modelled. The reply carries the farewell text.
- `yaml.safe_load` is not modelled. The translator takes the loaded mapping, with string keys
  in document order.
  - YAML floats are not modelled. Numbers are ints and booleans.
  - Non-string keys are not modelled. Python would raise `TypeError` in `re.match` on them.
- Text is compared as code points. Encodings (`cp1251`, `utf-8`) are not modelled.
- Text.ParseInt: accepts ASCII digits only. Python's `int()` also accepts other Unicode
  decimal digits and surrounding whitespace. `parse_file` passes it only slices of
  whitespace-free words, so whitespace never reaches it. The cp1251-decoded input holds no
  non-ASCII decimal digit.
- Interpreter.Execute: its own contract states only that well-formedness and the memory size
  are kept. What each instruction does is stated by the `Apply…` functions it dispatches to.
- Interpreter.TruncatedProgram: stated only for programs shorter than four bytes, the shortest
  word. A longer program that ends inside a 5-byte word takes the same path through
  ReadBitset.

## Findings

| source | as written | input that shows it | evidently intended | confidence | as-written member | corrected member |
|---|---|---|---|---|---|---|
| mirea_homework_4/assemble/assemble.py:47-73 | the fields are placed with `bitarray`'s default big-endian bit order, so the tag lands in the last bits of the last byte and the first byte holds the high bits | an instruction such as `MEMORY_READ R5, [100]` gets tag `(5 // 4) % 8 = 1` in its first byte, so the interpreter executes it as a MEMORY_WRITE | the bit positions are the interpreter's, counted from the least significant bit of the little-endian word, so every instruction decodes back to itself | not executed | Assembler.AsWrittenMemoryReadMisread | Assembler.DecodeEncode |
| mirea_homework_4/assemble/assemble.py:36-43 | LOAD_CONSTANT writes `0xE0` as its first byte, then B big-endian, then C | `LOAD_CONSTANT R22, #482`: the interpreter reads value bits [3,27) whose low five bits are `0xE0 >> 3 = 28`, not 482's `2` | a 40-bit word with tag 0, the value at [3,27) and the register at [27,34), as the interpreter's handler reads it | not executed | Assembler.AsWrittenLoadConstantExample | Assembler.EncodeLoadConstant |
