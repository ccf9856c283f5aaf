/** The register-machine interpreter of mirea_homework_4/interpret/interpret.py:
    the four instruction handlers, the word reader, the dispatch loop that
    consumes a binary program word by word, and the memory dump.

    The effect of each handler is first stated on a value (`Machine`) by the
    `Apply...` functions; the class `Vm` holds the register file and memory
    as arrays, as the source does, and its methods are proved to update them
    as those functions say. */
module Interpreter {
  import opened Results
  import opened Bits
  import opened Isa
  import Text

  /** Register indices are 7 bits wide, so the register file has 128 slots. */
  const RegisterCount: nat := 128

  /** The interpreter's state: `self.registers` and `self.memory`. */
  datatype Machine = Machine(registers: seq<int>, memory: seq<int>)

  predicate WellFormed(m: Machine)
  {
    |m.registers| >= RegisterCount
  }

  /** Why a run stopped early: a tag that names no handler, a program that
      ends inside a word (`EOFError`), or a Python `IndexError` from a
      negative computed address further out than the memory's length. */
  datatype Fault = UnknownOpcode(tag: nat) | TruncatedInstruction | IndexOutOfRange

  datatype Outcome = Halted | Faulted(fault: Fault)

  /** The element Python's `xs[i]` denotes in a list of `length` elements:
      a negative `i` counts from the end; beyond that it is an `IndexError`. */
  function ListIndex(i: int, length: nat): (k: Option<nat>)
    ensures k.Some? <==> -(length as int) <= i < length
    ensures k.Some? ==> k.value < length && k.value == (if i >= 0 then i else i + length)
  {
    if 0 <= i < length then Some(i)
    else if -(length as int) <= i < 0 then Some(i + length)
    else None
  }

  /** LOAD_CONSTANT: register `reg` becomes `value`; nothing else changes. */
  function ApplyLoadConstant(m: Machine, value: int, reg: int): (r: Machine)
    requires 0 <= reg < |m.registers|
    ensures |r.registers| == |m.registers| && r.memory == m.memory
    ensures r.registers[reg] == value
    ensures forall j | 0 <= j < |m.registers| && j != reg :: r.registers[j] == m.registers[j]
  {
    m.(registers := m.registers[reg := value])
  }

  /** MEMORY_READ: an address inside memory copies that cell into register
      `reg`; any other address changes nothing. Memory never changes. */
  function ApplyMemoryRead(m: Machine, reg: int, address: int): (r: Machine)
    requires 0 <= reg < |m.registers| && 0 <= address
    ensures |r.registers| == |m.registers| && r.memory == m.memory
    ensures address < |m.memory| ==> r.registers[reg] == m.memory[address]
    ensures forall j | 0 <= j < |m.registers| && j != reg :: r.registers[j] == m.registers[j]
    ensures address >= |m.memory| ==> r == m
  {
    if address < |m.memory| then m.(registers := m.registers[reg := m.memory[address]]) else m
  }

  /** MEMORY_WRITE: when `base` names a register and R[base] + offset is
      below the memory's length, that cell (counted from the end when
      negative, as Python does) becomes R[src]; otherwise nothing changes.
      Registers never change. */
  function ApplyMemoryWrite(m: Machine, src: int, base: int, offset: int): (r: Result<Machine, Fault>)
    requires 0 <= src < |m.registers| && 0 <= base && 0 <= offset
    ensures r.Ok? ==> r.value.registers == m.registers && |r.value.memory| == |m.memory|
    ensures base >= |m.registers| ==> r == Ok(m)
    ensures base < |m.registers| && m.registers[base] + offset >= |m.memory| ==> r == Ok(m)
    ensures base < |m.registers| && m.registers[base] + offset < -|m.memory| ==> r == Err(IndexOutOfRange)
    ensures base < |m.registers| && -|m.memory| <= m.registers[base] + offset < |m.memory| ==>
      var cell := ListIndex(m.registers[base] + offset, |m.memory|).value;
      && r.Ok?
      && r.value.memory[cell] == m.registers[src]
      && forall k | 0 <= k < |m.memory| && k != cell :: r.value.memory[k] == m.memory[k]
  {
    if base < |m.registers| && m.registers[base] + offset < |m.memory| then
      match ListIndex(m.registers[base] + offset, |m.memory|)
      case None => Err(IndexOutOfRange)
      case Some(cell) => Ok(m.(memory := m.memory[cell := m.registers[src]]))
    else Ok(m)
  }

  /** OR: when `dst` and `base` name registers and R[base] + offset is below
      the memory's length, R[dst] becomes R[dst] | M[R[base] + offset];
      otherwise nothing changes. Memory never changes. */
  function ApplyBitwiseOr(m: Machine, offset: int, dst: int, base: int): (r: Result<Machine, Fault>)
    requires 0 <= offset && 0 <= dst && 0 <= base
    ensures r.Ok? ==> r.value.memory == m.memory && |r.value.registers| == |m.registers|
    ensures dst >= |m.registers| || base >= |m.registers| ==> r == Ok(m)
    ensures dst < |m.registers| && base < |m.registers| ==>
      var address := m.registers[base] + offset;
      && (address >= |m.memory| ==> r == Ok(m))
      && (address < -|m.memory| ==> r == Err(IndexOutOfRange))
      && (-|m.memory| <= address < |m.memory| ==>
            var cell := ListIndex(address, |m.memory|).value;
            && r.Ok?
            && r.value.registers[dst] == BitOr(m.registers[dst], m.memory[cell])
            && forall j | 0 <= j < |m.registers| && j != dst :: r.value.registers[j] == m.registers[j])
  {
    if dst < |m.registers| && base < |m.registers| && m.registers[base] + offset < |m.memory| then
      match ListIndex(m.registers[base] + offset, |m.memory|)
      case None => Err(IndexOutOfRange)
      case Some(cell) =>
        Ok(m.(registers := m.registers[dst := BitOr(m.registers[dst], m.memory[cell])]))
    else Ok(m)
  }

  /** The effect of one decoded instruction. */
  function Execute(m: Machine, i: Instruction): (r: Result<Machine, Fault>)
    requires WellFormed(m) && Fits(i)
    ensures r.Ok? ==> WellFormed(r.value) && |r.value.memory| == |m.memory|
  {
    match i
    case LoadConstant(value, reg) => Ok(ApplyLoadConstant(m, value, reg))
    case MemoryRead(reg, address) => Ok(ApplyMemoryRead(m, reg, address))
    case MemoryWrite(src, base, offset) => ApplyMemoryWrite(m, src, base, offset)
    case BitwiseOr(offset, dst, base) => ApplyBitwiseOr(m, offset, dst, base)
  }

  /** OR never clears a bit of the destination register, and every bit it
      sets comes from the memory cell read. */
  lemma BitwiseOrKeepsBits(m: Machine, offset: nat, dst: nat, base: nat, k: nat)
    requires dst < |m.registers| && base < |m.registers|
    requires 0 <= m.registers[base] + offset < |m.memory|
    ensures var r := ApplyBitwiseOr(m, offset, dst, base);
      && r.Ok?
      && (Bit(m.registers[dst], k) ==> Bit(r.value.registers[dst], k))
      && (Bit(r.value.registers[dst], k) ==>
            Bit(m.registers[dst], k) || Bit(m.memory[m.registers[base] + offset], k))
  {
    BitOrBits(m.registers[dst], m.memory[m.registers[base] + offset], k);
  }

  /** Every register and memory cell holds a value in [0, 2^24). */
  predicate Bounded(m: Machine)
  {
    && (forall j | 0 <= j < |m.registers| :: 0 <= m.registers[j] < Pow2(24))
    && (forall k | 0 <= k < |m.memory| :: 0 <= m.memory[k] < Pow2(24))
  }

  /** From a bounded state every decoded instruction succeeds (a computed
      address R[x] + offset is never negative) and leaves the state bounded. */
  lemma ExecuteKeepsBounded(m: Machine, i: Instruction)
    requires WellFormed(m) && Fits(i) && Bounded(m)
    ensures Execute(m, i).Ok? && Bounded(Execute(m, i).value)
  {
    match i
    case LoadConstant(value, reg) =>
    case MemoryRead(reg, address) =>
    case MemoryWrite(src, base, offset) =>
      MemoryWriteKeepsBounded(m, src, base, offset);
    case BitwiseOr(offset, dst, base) =>
      BitwiseOrKeepsBounded(m, offset, dst, base);
  }

  lemma MemoryWriteKeepsBounded(m: Machine, src: nat, base: nat, offset: nat)
    requires src < |m.registers| && Bounded(m)
    ensures ApplyMemoryWrite(m, src, base, offset).Ok?
    ensures Bounded(ApplyMemoryWrite(m, src, base, offset).value)
  {
    if base < |m.registers| && m.registers[base] + offset < |m.memory| {
      var cell := m.registers[base] + offset;
      var next := m.(memory := m.memory[cell := m.registers[src]]);
      assert ApplyMemoryWrite(m, src, base, offset) == Ok(next);
    }
  }

  lemma BitwiseOrKeepsBounded(m: Machine, offset: nat, dst: nat, base: nat)
    requires Bounded(m)
    ensures ApplyBitwiseOr(m, offset, dst, base).Ok?
    ensures Bounded(ApplyBitwiseOr(m, offset, dst, base).value)
  {
    if dst < |m.registers| && base < |m.registers| && m.registers[base] + offset < |m.memory| {
      var cell := m.registers[base] + offset;
      var value := BitOr(m.registers[dst], m.memory[cell]);
      BitOrBound(m.registers[dst], m.memory[cell], 24);
      var next := m.(registers := m.registers[dst := value]);
      assert ListIndex(cell, |m.memory|) == Some(cell);
      assert ApplyBitwiseOr(m, offset, dst, base) == Ok(next);
      forall j | 0 <= j < |next.registers|
        ensures 0 <= next.registers[j] < Pow2(24)
      {
        if j != dst {
          assert next.registers[j] == m.registers[j];
        }
      }
    }
  }

  /** `read_bitset_from_binary_file`: the next `(bitCount + 7) / 8` bytes of
      the stream as a little-endian value, or `None` (an `EOFError`) when
      fewer bytes remain; a partial word is never returned. */
  function ReadBitset(stream: seq<Byte>, bitCount: nat): (r: Option<nat>)
    ensures r.Some? <==> ByteCount(bitCount) <= |stream|
    ensures r.Some? ==> r.value < Pow2(8 * ByteCount(bitCount))
    ensures r.Some? ==> ToLittleEndian(r.value, ByteCount(bitCount)) == stream[..ByteCount(bitCount)]
  {
    var n := ByteCount(bitCount);
    if |stream| < n then None
    else
      LittleEndianBytesRoundTrip(stream[..n]);
      Some(FromLittleEndian(stream[..n]))
  }

  /** The line a handler prints when debugging is on. */
  function DebugLine(i: Instruction): string
  {
    var a := Text.IntToString(Tag(i));
    match i
    case LoadConstant(value, reg) =>
      "LOAD_CONSTANT: A=" + a + ", B=" + Text.IntToString(value) + ", C=" + Text.IntToString(reg)
    case MemoryRead(reg, address) =>
      "MEMORY_READ: A=" + a + ", B=" + Text.IntToString(reg) + ", C=" + Text.IntToString(address)
    case MemoryWrite(src, base, offset) =>
      "MEMORY_WRITE: A=" + a + ", B=" + Text.IntToString(src) + ", C=" + Text.IntToString(base)
        + ", D=" + Text.IntToString(offset)
    case BitwiseOr(offset, dst, base) =>
      "BITWISE_OR: A=" + a + ", B=" + Text.IntToString(offset) + ", C=" + Text.IntToString(dst)
        + ", D=" + Text.IntToString(base)
  }

  /** What the dispatch loop does with the word at the front of a program:
      stop on a fault, or execute `instruction`, a word of `length` bytes,
      giving `machine`. */
  datatype Step = Stop(fault: Fault) | Next(instruction: Instruction, length: nat, machine: Machine)

  /** One turn of the dispatch loop: the low three bits of the next byte
      select the handler and the word length, then the word is read,
      decoded and executed. */
  function StepAt(m: Machine, program: seq<Byte>): (s: Step)
    requires WellFormed(m) && program != []
    ensures s.Next? ==> 0 < s.length <= |program| && WellFormed(s.machine)
    ensures s.Next? ==> |s.machine.memory| == |m.memory|
  {
    var tag := program[0] % 8;
    match WordBits(tag)
    case None => Stop(UnknownOpcode(tag))
    case Some(bits) =>
      match ReadBitset(program, bits)
      case None => Stop(TruncatedInstruction)
      case Some(code) =>
        var i := Decode(tag, code);
        match Execute(m, i)
        case Err(f) => Stop(f)
        case Ok(next) => Next(i, ByteCount(bits), next)
  }

  /** Final state, how the run ended, and the instructions executed, in order. */
  datatype Report = Report(machine: Machine, outcome: Outcome, executed: seq<Instruction>)

  /** `[f(x) for x in xs]`. */
  function MapSeq<A, B>(f: A -> B, xs: seq<A>): (ys: seq<B>)
    ensures |ys| == |xs|
    ensures forall k | 0 <= k < |xs| :: ys[k] == f(xs[k])
  {
    if xs == [] then [] else [f(xs[0])] + MapSeq(f, xs[1..])
  }

  lemma {:induction false} MapSeqAppend<A, B>(f: A -> B, xs: seq<A>, ys: seq<A>)
    ensures MapSeq(f, xs + ys) == MapSeq(f, xs) + MapSeq(f, ys)
    decreases |xs|
  {
    if xs == [] {
      assert xs + ys == ys;
    } else {
      var zs := xs + ys;
      assert zs[0] == xs[0] && zs[1..] == xs[1..] + ys;
      MapSeqAppend(f, xs[1..], ys);
      Text.AppendAssoc([f(xs[0])], MapSeq(f, xs[1..]), MapSeq(f, ys));
    }
  }

  /** What a run prints: one debug line per instruction executed when
      debugging is on, else nothing. */
  function Printed(debug: bool, executed: seq<Instruction>): seq<string>
  {
    if debug then MapSeq(DebugLine, executed) else []
  }

  /** Executing one more instruction prints at most its own debug line. */
  lemma PrintedAppend(debug: bool, done: seq<Instruction>, i: Instruction)
    ensures Printed(debug, done + [i]) == Printed(debug, done) + Printed(debug, [i])
  {
    MapSeqAppend(DebugLine, done, [i]);
  }

  /** The trace after one more instruction: the earlier trace, then at most
      that instruction's debug line. */
  lemma PrintedStep(trace: seq<string>, debug: bool, done: seq<Instruction>, i: Instruction)
    ensures trace + Printed(debug, done) + (if debug then [DebugLine(i)] else [])
      == trace + Printed(debug, done + [i])
  {
    PrintedAppend(debug, done, i);
    assert Printed(debug, [i]) == if debug then [DebugLine(i)] else [];
    Text.AppendAssoc(trace, Printed(debug, done), Printed(debug, [i]));
  }

  /** The dispatch loop run to the end of the program. The program ends
      cleanly only on a word boundary. */
  function Run(m: Machine, program: seq<Byte>): (r: Report)
    requires WellFormed(m)
    ensures WellFormed(r.machine) && |r.machine.memory| == |m.memory|
    decreases |program|
  {
    if program == [] then Report(m, Halted, [])
    else
      match StepAt(m, program)
      case Stop(f) => Report(m, Faulted(f), [])
      case Next(i, n, next) =>
        var rest := Run(next, program[n..]);
        Report(rest.machine, rest.outcome, [i] + rest.executed)
  }

  /** A step depends only on the word it reads: bytes after it are not looked at. */
  lemma StepOfPrefix(m: Machine, program: seq<Byte>, more: seq<Byte>)
    requires WellFormed(m) && program != []
    requires StepAt(m, program).Next?
    ensures StepAt(m, program + more) == StepAt(m, program)
  {
    var bits := WordBits(program[0] % 8).value;
    var n := ByteCount(bits);
    assert (program + more)[..n] == program[..n];
  }

  lemma DropOfAppend<T>(a: seq<T>, b: seq<T>, n: nat)
    requires n <= |a|
    ensures (a + b)[n..] == a[n..] + b
  {
  }

  /** One turn of the loop unfolded: a run that takes a step is that
      step's instruction followed by the run of the rest of the program. */
  lemma RunNext(m: Machine, program: seq<Byte>)
    requires WellFormed(m) && program != [] && StepAt(m, program).Next?
    ensures var s := StepAt(m, program);
      var rest := Run(s.machine, program[s.length..]);
      Run(m, program) == Report(rest.machine, rest.outcome, [s.instruction] + rest.executed)
  {
  }

  /** The step taken on a word whose tag is known and which was read whole. */
  lemma StepOfWord(m: Machine, program: seq<Byte>, bits: nat, code: nat)
    requires WellFormed(m) && program != []
    requires WordBits(program[0] % 8) == Some(bits) && ReadBitset(program, bits) == Some(code)
    ensures var i := Decode(program[0] % 8, code);
      StepAt(m, program) == match Execute(m, i)
        case Ok(next) => Next(i, ByteCount(bits), next)
        case Err(f) => Stop(f)
  {
  }

  /** A run whose first step stops ends there, with nothing executed. */
  lemma RunStop(m: Machine, program: seq<Byte>)
    requires WellFormed(m) && program != [] && StepAt(m, program).Stop?
    ensures Run(m, program) == Report(m, Faulted(StepAt(m, program).fault), [])
  {
  }

  /** The run of `rest` from `m`, after `done` has already been executed:
      the dispatch loop's invariant is that this is the run of the whole
      program. */
  function Resume(m: Machine, rest: seq<Byte>, done: seq<Instruction>): (r: Report)
    requires WellFormed(m)
  {
    var tail := Run(m, rest);
    Report(tail.machine, tail.outcome, done + tail.executed)
  }

  lemma ResumeAtStart(m: Machine, program: seq<Byte>)
    requires WellFormed(m)
    ensures Resume(m, program, []) == Run(m, program)
  {
    assert [] + Run(m, program).executed == Run(m, program).executed;
  }

  lemma ResumeAfterStep(m: Machine, rest: seq<Byte>, done: seq<Instruction>)
    requires WellFormed(m) && rest != [] && StepAt(m, rest).Next?
    ensures var s := StepAt(m, rest);
      Resume(m, rest, done) == Resume(s.machine, rest[s.length..], done + [s.instruction])
  {
    var s := StepAt(m, rest);
    RunNext(m, rest);
    Text.AppendAssoc(done, [s.instruction], Run(s.machine, rest[s.length..]).executed);
  }

  /** The run of a program resumed at byte `pos` goes on at the end of the
      word there. */
  lemma ResumeAt(start: Machine, program: seq<Byte>, pos: nat, done: seq<Instruction>,
                 m: Machine, i: Instruction, length: nat, next: Machine)
    requires WellFormed(start) && WellFormed(m) && pos < |program|
    requires StepAt(m, program[pos..]) == Next(i, length, next)
    requires Run(start, program) == Resume(m, program[pos..], done)
    ensures 0 < length && pos + length <= |program| && WellFormed(next)
    ensures Run(start, program) == Resume(next, program[pos + length..], done + [i])
  {
    ResumeAfterStep(m, program[pos..], done);
    assert program[pos..][length..] == program[pos + length..];
  }

  lemma ResumeAtStop(m: Machine, rest: seq<Byte>, done: seq<Instruction>)
    requires WellFormed(m) && rest != [] && StepAt(m, rest).Stop?
    ensures Resume(m, rest, done) == Report(m, Faulted(StepAt(m, rest).fault), done)
  {
    RunStop(m, rest);
    assert done + [] == done;
  }

  lemma ResumeAtEnd(m: Machine, done: seq<Instruction>)
    requires WellFormed(m)
    ensures Resume(m, [], done) == Report(m, Halted, done)
  {
    assert done + [] == done;
  }

  /** Running two programs back to back, the first of which halts cleanly,
      is running their concatenation. */
  lemma {:induction false} RunAppend(m: Machine, first: seq<Byte>, second: seq<Byte>)
    requires WellFormed(m)
    requires Run(m, first).outcome == Halted
    ensures var r1 := Run(m, first); var r2 := Run(r1.machine, second);
      Run(m, first + second) == Report(r2.machine, r2.outcome, r1.executed + r2.executed)
    decreases |first|
  {
    if first == [] {
      assert first + second == second;
    } else {
      var s := StepAt(m, first);
      assert s.Next?;
      var n := s.length;
      RunNext(m, first);
      StepOfPrefix(m, first, second);
      RunNext(m, first + second);
      DropOfAppend(first, second, n);
      RunAppend(s.machine, first[n..], second);
      var r1, rest1 := Run(m, first), Run(s.machine, first[n..]);
      var r2 := Run(rest1.machine, second);
      var whole := Run(s.machine, first[n..] + second);
      var all := Run(m, first + second);
      assert all.machine == whole.machine && all.outcome == whole.outcome;
      assert all.executed == [s.instruction] + whole.executed;
      assert whole.executed == rest1.executed + r2.executed;
      assert r1.executed == [s.instruction] + rest1.executed;
      Text.AppendAssoc([s.instruction], rest1.executed, r2.executed);
    }
  }

  /** A run from a bounded state never faults on an address and ends bounded. */
  lemma {:induction false} RunKeepsBounded(m: Machine, program: seq<Byte>)
    requires WellFormed(m) && Bounded(m)
    ensures Bounded(Run(m, program).machine)
    ensures Run(m, program).outcome != Faulted(IndexOutOfRange)
    decreases |program|
  {
    if program != [] {
      var tag := program[0] % 8;
      if WordBits(tag).Some? {
        var bits := WordBits(tag).value;
        if ReadBitset(program, bits).Some? {
          var i := Decode(tag, ReadBitset(program, bits).value);
          ExecuteKeepsBounded(m, i);
          RunKeepsBounded(Execute(m, i).value, program[ByteCount(bits)..]);
        }
      }
    }
  }

  /** A program that stops inside its first word (fewer than four bytes
      after a valid tag) faults as truncated and changes nothing. */
  lemma TruncatedProgram(m: Machine, program: seq<Byte>)
    requires WellFormed(m)
    requires 0 < |program| < 4 && WordBits(program[0] % 8).Some?
    ensures Run(m, program) == Report(m, Faulted(TruncatedInstruction), [])
  {
  }

  /** Value of memory cell `address` in the dump; cells outside memory read 0. */
  function Cell(memory: seq<int>, address: int): int
  {
    if 0 <= address < |memory| then memory[address] else 0
  }

  /** One report row, `address,value`. */
  function Row(address: int, value: int): string
  {
    Text.IntToString(address) + "," + Text.IntToString(value)
  }

  function Rows(memory: seq<int>, start: int, end: int): seq<string>
    decreases end - start
  {
    if start >= end then [] else [Row(start, Cell(memory, start))] + Rows(memory, start + 1, end)
  }

  datatype DumpError = InvalidRange

  /** The memory dump: the header `ID,VALUE`, then one row per address of
      [start, end) in ascending order; a range with start > end is refused. */
  function Dump(memory: seq<int>, start: int, end: int): Result<seq<string>, DumpError>
  {
    if start > end then Err(InvalidRange) else Ok(["ID,VALUE"] + Rows(memory, start, end))
  }

  /** The text written to the report file: every line ends with a newline. */
  function ReportText(lines: seq<string>): string
  {
    if lines == [] then "" else lines[0] + "\n" + ReportText(lines[1..])
  }

  /** Reads a row back: the text before the first comma and the text after
      it, each parsed as an int. */
  function ParseRow(line: string): Option<(int, int)>
  {
    if ',' !in line then None
    else
      var k := FirstComma(line);
      match (Text.ParseInt(line[..k]), Text.ParseInt(line[k + 1..]))
      case (Some(a), Some(v)) => Some((a, v))
      case _ => None
  }

  function FirstComma(line: string): (k: nat)
    requires ',' in line
    ensures k < |line| && line[k] == ',' && ',' !in line[..k]
  {
    if line[0] == ',' then 0
    else
      assert line == [line[0]] + line[1..];
      var k := FirstComma(line[1..]);
      assert line[..k + 1] == [line[0]] + line[1..][..k];
      k + 1
  }

  lemma NoCommaInNumber(i: int)
    ensures ',' !in Text.IntToString(i)
  {
    var s := Text.IntToString(i);
    if i < 0 {
      var digits := Text.NatToString(-i);
      assert s == "-" + digits;
      assert forall k | 1 <= k < |s| :: s[k] == digits[k - 1];
    }
  }

  lemma ParseRowOfRow(line: string, address: int, value: int)
    requires line == Row(address, value)
    ensures ParseRow(line) == Some((address, value))
  {
    var a, v := Text.IntToString(address), Text.IntToString(value);
    NoCommaInNumber(address);
    assert line[|a|] == ',';
    assert line[..|a|] == a;
    var k := FirstComma(line);
    assert line[k + 1..] == v;
    Text.ParseIntToString(address);
    Text.ParseIntToString(value);
  }

  lemma {:induction false} RowsAt(memory: seq<int>, start: int, end: int, k: nat)
    requires start + k < end
    ensures |Rows(memory, start, end)| == end - start
    ensures Rows(memory, start, end)[k] == Row(start + k, Cell(memory, start + k))
    decreases end - start
  {
    RowsLength(memory, start, end);
    var rows := Rows(memory, start, end);
    assert rows == [Row(start, Cell(memory, start))] + Rows(memory, start + 1, end);
    if k > 0 {
      RowsAt(memory, start + 1, end, k - 1);
      assert rows[k] == Rows(memory, start + 1, end)[k - 1];
    }
  }

  lemma {:induction false} RowsLength(memory: seq<int>, start: int, end: int)
    ensures |Rows(memory, start, end)| == if start >= end then 0 else end - start
    decreases end - start
  {
    if start < end {
      RowsLength(memory, start + 1, end);
    }
  }

  /** A dump over a valid range has the header and then, in ascending
      order, one row per address that reads back as that address and the
      cell's value (0 outside memory); an inverted range is refused. */
  lemma DumpReadsBack(memory: seq<int>, start: int, end: int)
    ensures Dump(memory, start, end).Err? <==> start > end
    ensures start <= end ==>
      var lines := Dump(memory, start, end).value;
      && |lines| == end - start + 1
      && lines[0] == "ID,VALUE"
      && forall k | 1 <= k < |lines| ::
           ParseRow(lines[k]) == Some((start + k - 1, Cell(memory, start + k - 1)))
  {
    if start <= end {
      RowsLength(memory, start, end);
      var lines := Dump(memory, start, end).value;
      forall k | 1 <= k < |lines|
        ensures ParseRow(lines[k]) == Some((start + k - 1, Cell(memory, start + k - 1)))
      {
        DumpRow(memory, start, end, k);
        ParseRowOfRow(lines[k], start + k - 1, Cell(memory, start + k - 1));
      }
    }
  }

  lemma DumpRow(memory: seq<int>, start: int, end: int, k: nat)
    requires start <= end && 1 <= k <= end - start
    ensures |Dump(memory, start, end).value| == end - start + 1
    ensures Dump(memory, start, end).value[k] == Row(start + k - 1, Cell(memory, start + k - 1))
  {
    var rows := Rows(memory, start, end);
    RowsAt(memory, start, end, k - 1);
    var lines := ["ID,VALUE"] + rows;
    assert Dump(memory, start, end).value == lines;
    assert lines[k] == rows[k - 1];
  }

  /** The interpreter object: the register file and memory as arrays the
      handlers update in place, the debug flag, and the debug lines printed
      so far. */
  class Vm {
    var registers: array<int>
    var memory: array<int>
    const debug: bool
    var trace: seq<string>

    ghost predicate Valid()
      reads this
    {
      registers.Length >= RegisterCount && registers != memory
    }

    function State(): Machine
      reads this, registers, memory
    {
      Machine(registers[..], memory[..])
    }

    /** A fresh interpreter: 128 zero registers and `memorySize` zero cells. */
    constructor (memorySize: nat, debug: bool)
      ensures Valid() && fresh(registers) && fresh(memory)
      ensures State() == Machine(seq(RegisterCount, _ => 0), seq(memorySize, _ => 0))
      ensures this.debug == debug && trace == []
    {
      registers := new int[RegisterCount](_ => 0);
      memory := new int[memorySize](_ => 0);
      this.debug := debug;
      trace := [];
    }

    method LoadConstantFromCode(code: nat)
      requires Valid()
      modifies registers, this`trace
      ensures Valid()
      ensures var i := DecodeLoadConstant(code);
        && State() == ApplyLoadConstant(old(State()), i.value, i.reg)
        && trace == old(trace) + (if debug then [DebugLine(i)] else [])
    {
      var i := DecodeLoadConstant(code);
      if debug {
        trace := trace + [DebugLine(i)];
      }
      registers[i.reg] := i.value;
    }

    method MemoryReadFromCode(code: nat)
      requires Valid()
      modifies registers, this`trace
      ensures Valid()
      ensures var i := DecodeMemoryRead(code);
        && State() == ApplyMemoryRead(old(State()), i.reg, i.address)
        && trace == old(trace) + (if debug then [DebugLine(i)] else [])
    {
      var i := DecodeMemoryRead(code);
      if i.address < memory.Length {
        registers[i.reg] := memory[i.address];
      }
      if debug {
        trace := trace + [DebugLine(i)];
      }
    }

    method MemoryWriteFromCode(code: nat) returns (fault: Option<Fault>)
      requires Valid()
      modifies memory, this`trace
      ensures Valid()
      ensures var i := DecodeMemoryWrite(code);
        match ApplyMemoryWrite(old(State()), i.src, i.base, i.offset)
        case Ok(next) =>
          fault == None && State() == next && trace == old(trace) + (if debug then [DebugLine(i)] else [])
        case Err(f) =>
          fault == Some(f) && State() == old(State()) && trace == old(trace)
    {
      var i := DecodeMemoryWrite(code);
      if i.base < registers.Length && registers[i.base] + i.offset < memory.Length {
        var cell := ListIndex(registers[i.base] + i.offset, memory.Length);
        if cell.None? {
          return Some(IndexOutOfRange);
        }
        memory[cell.value] := registers[i.src];
      }
      if debug {
        trace := trace + [DebugLine(i)];
      }
      fault := None;
    }

    method BitwiseOrFromCode(code: nat) returns (fault: Option<Fault>)
      requires Valid()
      modifies registers, this`trace
      ensures Valid()
      ensures var i := DecodeBitwiseOr(code);
        match ApplyBitwiseOr(old(State()), i.offset, i.dst, i.base)
        case Ok(next) =>
          fault == None && State() == next && trace == old(trace) + (if debug then [DebugLine(i)] else [])
        case Err(f) =>
          fault == Some(f) && State() == old(State()) && trace == old(trace)
    {
      var i := DecodeBitwiseOr(code);
      if i.dst < registers.Length && i.base < registers.Length
         && registers[i.base] + i.offset < memory.Length
      {
        var cell := ListIndex(registers[i.base] + i.offset, memory.Length);
        if cell.None? {
          return Some(IndexOutOfRange);
        }
        registers[i.dst] := BitOr(registers[i.dst], memory[cell.value]);
      }
      if debug {
        trace := trace + [DebugLine(i)];
      }
      fault := None;
    }

    /** Runs the handler the tag selects on the word `code`. */
    method ExecuteWord(tag: nat, code: nat) returns (fault: Option<Fault>)
      requires Valid() && WellFormed(State()) && WordBits(tag).Some?
      modifies registers, memory, this`trace
      ensures Valid()
      ensures var i := Decode(tag, code);
        match Execute(old(State()), i)
        case Ok(next) =>
          fault == None && State() == next && trace == old(trace) + (if debug then [DebugLine(i)] else [])
        case Err(f) =>
          fault == Some(f) && State() == old(State()) && trace == old(trace)
    {
      fault := None;
      if tag == 0 {
        LoadConstantFromCode(code);
      } else if tag == 7 {
        MemoryReadFromCode(code);
      } else if tag == 1 {
        fault := MemoryWriteFromCode(code);
      } else {
        fault := BitwiseOrFromCode(code);
      }
    }

    /** One turn of `execute_binary_file`'s loop at byte `pos`: the tag from
        the low three bits of the next byte, the word read whole, the
        handler run, all as `StepAt` says. */
    method ExecuteNextWord(program: seq<Byte>, pos: nat) returns (fault: Option<Fault>, length: nat)
      requires Valid() && WellFormed(State()) && pos < |program|
      modifies registers, memory, this`trace
      ensures Valid()
      ensures var s := StepAt(old(State()), program[pos..]);
        && (fault.Some? <==> s.Stop?)
        && (s.Stop? ==> fault.value == s.fault && State() == old(State()) && trace == old(trace))
        && (s.Next? ==>
              length == s.length && State() == s.machine
              && trace == old(trace) + (if debug then [DebugLine(s.instruction)] else []))
    {
      ghost var before := State();
      var tag := program[pos] % 8;
      var bits := WordBits(tag);
      if bits.None? {
        return Some(UnknownOpcode(tag)), 0;
      }
      var code := ReadBitset(program[pos..], bits.value);
      if code.None? {
        return Some(TruncatedInstruction), 0;
      }
      StepOfWord(before, program[pos..], bits.value, code.value);
      fault := ExecuteWord(tag, code.value);
      length := ByteCount(bits.value);
    }

    /** One turn of `execute_binary_file`'s loop, seen from the whole run:
        after a fault the run is over, otherwise it resumes at the next word
        with the instruction executed and its debug line printed. */
    method ResumeNextWord(program: seq<Byte>, pos: nat, ghost start: Machine,
                          ghost printed: seq<string>, ghost done: seq<Instruction>)
      returns (fault: Option<Fault>, length: nat, ghost executed: seq<Instruction>)
      requires Valid() && WellFormed(State()) && WellFormed(start) && pos < |program|
      requires Run(start, program) == Resume(State(), program[pos..], done)
      requires trace == printed + Printed(debug, done)
      modifies registers, memory, this`trace
      ensures Valid() && WellFormed(State())
      ensures fault.Some? ==>
        Run(start, program) == Report(State(), Faulted(fault.value), done)
        && trace == printed + Printed(debug, done)
      ensures fault.None? ==>
        && 0 < length && pos + length <= |program|
        && Run(start, program) == Resume(State(), program[pos + length..], executed)
        && trace == printed + Printed(debug, executed)
    {
      ghost var before := State();
      ghost var step := StepAt(before, program[pos..]);
      fault, length := ExecuteNextWord(program, pos);
      executed := done;
      if fault.Some? {
        ResumeAtStop(before, program[pos..], done);
        return;
      }
      ghost var after := State();
      assert step == Next(step.instruction, length, after);
      ResumeAt(start, program, pos, done, before, step.instruction, length, after);
      PrintedStep(printed, debug, done, step.instruction);
      executed := done + [step.instruction];
    }

    /** `execute_binary_file`: runs the program word by word until it ends
        or faults, exactly as `Run` describes. */
    method ExecuteBinaryFile(program: seq<Byte>) returns (outcome: Outcome)
      requires Valid()
      modifies registers, memory, this`trace
      ensures Valid()
      ensures var r := Run(old(State()), program);
        && State() == r.machine
        && outcome == r.outcome
        && trace == old(trace) + Printed(debug, r.executed)
    {
      ghost var start, printed := State(), trace;
      ghost var done: seq<Instruction> := [];
      var pos := 0;
      ResumeAtStart(start, program);
      while pos < |program|
        invariant pos <= |program| && Valid() && WellFormed(State())
        invariant Run(start, program) == Resume(State(), program[pos..], done)
        invariant trace == printed + Printed(debug, done)
        decreases |program| - pos
      {
        var fault, length;
        fault, length, done := ResumeNextWord(program, pos, start, printed, done);
        if fault.Some? {
          return Faulted(fault.value);
        }
        pos := pos + length;
      }
      ResumeAtEnd(State(), done);
      outcome := Halted;
    }
  }
}
