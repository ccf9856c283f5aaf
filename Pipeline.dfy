/** The assembler and the interpreter together: the bytes the assembler
    writes for a file are read back by the interpreter's dispatch loop one
    word at a time, and the run executes exactly the instructions the file
    names (LOAD_CONSTANT with its fields masked), in order, up to the first
    fault. */
module Pipeline {
  import opened Results
  import opened Bits
  import opened Isa
  import opened Interpreter
  import opened Assembler

  /** The instructions executed one after another from `m`, stopping at the
      first fault. */
  function ExecuteAll(m: Machine, program: seq<Instruction>): (r: Report)
    requires WellFormed(m)
    requires forall k | 0 <= k < |program| :: Fits(program[k])
    ensures WellFormed(r.machine) && |r.machine.memory| == |m.memory|
    ensures r.executed <= program
    ensures r.outcome == Halted <==> r.executed == program
    decreases |program|
  {
    if program == [] then Report(m, Halted, [])
    else
      match Execute(m, program[0])
      case Err(f) => Report(m, Faulted(f), [])
      case Ok(next) =>
        var rest := ExecuteAll(next, program[1..]);
        Report(rest.machine, rest.outcome, [program[0]] + rest.executed)
  }

  /** Every instruction can be encoded. */
  predicate Emittable(instructions: seq<Instruction>)
  {
    forall k | 0 <= k < |instructions| :: Emit(instructions[k]).Ok?
  }

  /** The bytes written for the instructions, word after word. */
  function Binary(instructions: seq<Instruction>): seq<Byte>
    requires Emittable(instructions)
  {
    if instructions == [] then [] else Emit(instructions[0]).value + Binary(instructions[1..])
  }

  /** The instructions the lines name, in order; a line with an unknown
      mnemonic names none. */
  function Parsed(lines: seq<string>): seq<Instruction>
  {
    if lines == [] then []
    else
      var named := match ParseLine(lines[0]) case Ok(Some(i)) => [i] case _ => [];
      named + Parsed(lines[1..])
  }

  /** The word emitted for `i`, followed by anything, is decoded back into
      the instruction stored and executed as such. */
  lemma EmittedWordSteps(m: Machine, i: Instruction, more: seq<Byte>)
    requires WellFormed(m) && Emit(i).Ok?
    ensures Fits(Stored(i))
    ensures var bytes := Emit(i).value;
      StepAt(m, bytes + more) == match Execute(m, Stored(i))
        case Ok(next) => Next(Stored(i), |bytes|, next)
        case Err(f) => Stop(f)
  {
    var bytes := Emit(i).value;
    var program := bytes + more;
    var bits := WordBits(Tag(i)).value;
    var n := ByteCount(bits);
    assert program[0] == bytes[0];
    assert program[..n] == bytes;
    var code := ReadBitset(program, bits).value;
    LittleEndianRoundTrip(code, n);
    assert code == FromLittleEndian(bytes);
    StepOfWord(m, program, bits, code);
  }

  /** Stored instructions always fit their fields. */
  lemma StoredFits(instructions: seq<Instruction>)
    requires Emittable(instructions)
    ensures forall k | 0 <= k < |instructions| :: Fits(MapSeq(Stored, instructions)[k])
  {
    forall k | 0 <= k < |instructions|
      ensures Fits(Stored(instructions[k]))
    {
      assert Decode(Tag(instructions[k]), FromLittleEndian(Emit(instructions[k]).value)) == Stored(instructions[k]);
    }
  }

  /** The interpreter runs the encoded words exactly as the stored
      instructions executed one after another. */
  lemma {:induction false} RunOfBinary(m: Machine, instructions: seq<Instruction>)
    requires WellFormed(m) && Emittable(instructions)
    ensures forall k | 0 <= k < |instructions| :: Fits(MapSeq(Stored, instructions)[k])
    ensures Run(m, Binary(instructions)) == ExecuteAll(m, MapSeq(Stored, instructions))
    decreases |instructions|
  {
    StoredFits(instructions);
    if instructions != [] {
      var i, tail := instructions[0], instructions[1..];
      var bytes, more := Emit(i).value, Binary(tail);
      var stored := MapSeq(Stored, instructions);
      assert stored[0] == Stored(i) && stored[1..] == MapSeq(Stored, tail);
      EmittedWordSteps(m, i, more);
      match Execute(m, Stored(i))
      case Err(f) =>
        RunStop(m, bytes + more);
      case Ok(next) =>
        RunNext(m, bytes + more);
        assert (bytes + more)[|bytes|..] == more;
        RunOfBinary(next, tail);
    }
  }

  /** A file the assembler finishes without an exception names only
      instructions it could encode, and its output is their words. */
  lemma {:induction false} AssembledBinary(lines: seq<string>)
    requires AssembleLines(lines).failure.None?
    ensures Emittable(Parsed(lines))
    ensures AssembleLines(lines).binary == Binary(Parsed(lines))
  {
    if lines != [] {
      var line, tail := lines[0], lines[1..];
      assert Shares(lines) == [AssembleLine(line)] + Shares(tail);
      assert Shares(lines)[1..] == Shares(tail);
      AssembledBinary(tail);
      match ParseLine(line)
      case Ok(None) =>
        assert Parsed(lines) == Parsed(tail);
      case Ok(Some(i)) =>
        var parsed := Parsed(lines);
        assert parsed == [i] + Parsed(tail);
        assert parsed[0] == i && parsed[1..] == Parsed(tail);
    }
  }

  /** Assembling a file and interpreting the bytes executes the file's
      instructions in order, as stored, until the first fault. */
  lemma AssembleThenRun(m: Machine, lines: seq<string>)
    requires WellFormed(m) && AssembleLines(lines).failure.None?
    ensures Emittable(Parsed(lines))
    ensures forall k | 0 <= k < |Parsed(lines)| :: Fits(MapSeq(Stored, Parsed(lines))[k])
    ensures Run(m, AssembleLines(lines).binary) == ExecuteAll(m, MapSeq(Stored, Parsed(lines)))
  {
    AssembledBinary(lines);
    RunOfBinary(m, Parsed(lines));
  }
}
