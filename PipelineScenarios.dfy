/** The interpreter test of mirea_homework_4/tests/tests.py: a register
    loaded with 52 and written to the cell R31 + 0 shows up as the report
    row `0,52`. The assembler rejects the test's own source lines (see
    AssemblerScenarios), so the words are taken from the encoder directly. */
module PipelineScenarios {
  import opened Results
  import opened Bits
  import opened Isa
  import opened Interpreter
  import opened Assembler
  import opened Pipeline
  import Text

  /** A fresh machine, as the interpreter starts. */
  predicate Fresh(m: Machine, size: nat)
  {
    m == Machine(seq(RegisterCount, _ => 0), seq(size, _ => 0))
  }

  lemma SmallNumbers()
    ensures Text.IntToString(0) == "0" && Text.IntToString(1) == "1"
    ensures Text.IntToString(2) == "2" && Text.IntToString(52) == "52"
  {
    assert Text.NatToString(5) == "5" && Text.NatToString(2) == "2";
  }

  /** Loading 52 into R0 and storing R0 at R31 + 0 leaves 52 in cell 0. */
  lemma WriteAfterLoad(m: Machine, size: nat)
    requires Fresh(m, size) && size >= 2
    ensures var program := [LoadConstant(52, 0), MemoryWrite(0, 31, 0)];
      && Emittable(program)
      && var r := Run(m, Binary(program));
      && r.outcome == Halted
      && r.machine.memory == m.memory[0 := 52]
  {
    var program := [LoadConstant(52, 0), MemoryWrite(0, 31, 0)];
    StoredProgram(program);
    RunOfBinary(m, program);
    var m1 := m.(registers := m.registers[0 := 52]);
    LoadStep(m, m1);
    WriteStep(m1);
    TwoSteps(m, program, m1, m1.(memory := m.memory[0 := 52]));
  }

  /** Both words can be written, and they are stored unchanged. */
  lemma StoredProgram(program: seq<Instruction>)
    requires program == [LoadConstant(52, 0), MemoryWrite(0, 31, 0)]
    ensures Emittable(program) && MapSeq(Stored, program) == program
  {
    Pow2Table();
    assert Fits(MemoryWrite(0, 31, 0));
    assert Stored(LoadConstant(52, 0)) == LoadConstant(52, 0);
  }

  /** `LOAD_CONSTANT` of 52 into R0 on a fresh machine. */
  lemma LoadStep(m: Machine, next: Machine)
    requires |m.registers| == RegisterCount && next == m.(registers := m.registers[0 := 52])
    ensures Execute(m, LoadConstant(52, 0)) == Ok(next)
  {
    Pow2Table();
  }

  /** `MEMORY_WRITE` of R0 to R31 + 0 when R31 holds 0. */
  lemma WriteStep(m: Machine)
    requires |m.registers| == RegisterCount && m.registers[31] == 0 && |m.memory| >= 2
    ensures Execute(m, MemoryWrite(0, 31, 0)) == Ok(m.(memory := m.memory[0 := m.registers[0]]))
  {
    Pow2Table();
    assert Fits(MemoryWrite(0, 31, 0));
    assert ListIndex(0, |m.memory|) == Some(0);
  }

  /** Two instructions that both succeed run to the end of the program. */
  lemma TwoSteps(m: Machine, program: seq<Instruction>, m1: Machine, m2: Machine)
    requires WellFormed(m) && |program| == 2 && Fits(program[0]) && Fits(program[1])
    requires Execute(m, program[0]) == Ok(m1) && WellFormed(m1)
    requires Execute(m1, program[1]) == Ok(m2)
    ensures ExecuteAll(m, program) == Report(m2, Halted, program)
  {
    var rest := program[1..];
    assert rest[0] == program[1] && rest[1..] == [];
    assert ExecuteAll(m1, rest) == Report(m2, Halted, [program[1]]);
    assert [program[0]] + [program[1]] == program;
  }

  /** The report of cells 0 and 1 after that program. */
  lemma DumpAfterWrite(memory: seq<int>)
    requires |memory| >= 2 && memory[0] == 52 && memory[1] == 0
    ensures Dump(memory, 0, 2) == Ok(["ID,VALUE", "0,52", "1,0"])
  {
    SmallNumbers();
    assert Row(0, 52) == "0,52" by { assert "0" + "," + "52" == "0,52"; }
    assert Row(1, 0) == "1,0" by { assert "1" + "," + "0" == "1,0"; }
    assert Rows(memory, 2, 2) == [];
    assert Rows(memory, 1, 2) == ["1,0"];
    assert Rows(memory, 0, 2) == ["0,52", "1,0"];
    assert ["ID,VALUE"] + ["0,52", "1,0"] == ["ID,VALUE", "0,52", "1,0"];
  }

  /** The test end to end: on a fresh machine with at least two cells,
      the report of cells 0 and 1 after the two words is the header, then
      `0,52`, then `1,0`. */
  lemma WriteTest(m: Machine, size: nat)
    requires Fresh(m, size) && size >= 2
    ensures var program := [LoadConstant(52, 0), MemoryWrite(0, 31, 0)];
      && Emittable(program)
      && Dump(Run(m, Binary(program)).machine.memory, 0, 2) == Ok(["ID,VALUE", "0,52", "1,0"])
  {
    WriteAfterLoad(m, size);
    var program := [LoadConstant(52, 0), MemoryWrite(0, 31, 0)];
    var memory := Run(m, Binary(program)).machine.memory;
    assert memory == m.memory[0 := 52] && m.memory[1] == 0;
    DumpAfterWrite(memory);
  }

  /** Untouched memory dumps as one zero row per address. */
  lemma ZeroRows(memory: seq<int>)
    requires |memory| >= 3 && memory[0] == 0 && memory[1] == 0 && memory[2] == 0
    ensures Dump(memory, 0, 3) == Ok(["ID,VALUE", "0,0", "1,0", "2,0"])
  {
    SmallNumbers();
    assert Row(0, 0) == "0,0" by { assert "0" + "," + "0" == "0,0"; }
    assert Row(1, 0) == "1,0" by { assert "1" + "," + "0" == "1,0"; }
    assert Row(2, 0) == "2,0" by { assert "2" + "," + "0" == "2,0"; }
    assert Rows(memory, 3, 3) == [];
    assert Rows(memory, 2, 3) == ["2,0"];
    assert Rows(memory, 1, 3) == ["1,0", "2,0"];
    assert Rows(memory, 0, 3) == ["0,0", "1,0", "2,0"];
    assert ["ID,VALUE"] + ["0,0", "1,0", "2,0"] == ["ID,VALUE", "0,0", "1,0", "2,0"];
  }

  /** The report file for those rows: every line ends with a newline. */
  lemma ZeroReportText(lines: seq<string>)
    requires lines == ["ID,VALUE", "0,0", "1,0", "2,0"]
    ensures ReportText(lines) == "ID,VALUE\n0,0\n1,0\n2,0\n"
  {
    assert lines[3..] == ["2,0"] && lines[3..][1..] == [];
    assert ReportText([]) == "";
    var last := ReportText(lines[3..]);
    assert last == "2,0\n" by { assert last == "2,0" + "\n" + ""; }
    assert lines[2..][0] == "1,0" && lines[2..][1..] == lines[3..];
    var two := ReportText(lines[2..]);
    assert two == "1,0\n2,0\n" by { assert two == "1,0" + "\n" + last; }
    assert lines[1..][0] == "0,0" && lines[1..][1..] == lines[2..];
    var three := ReportText(lines[1..]);
    assert three == "0,0\n1,0\n2,0\n" by { assert three == "0,0" + "\n" + two; }
    assert ReportText(lines) == "ID,VALUE" + "\n" + three;
  }

  /** Dumping cells 0 to 2 of untouched memory writes one zero row per
      address after the header. */
  lemma EmptyReport(memory: seq<int>)
    requires |memory| >= 3 && memory[0] == 0 && memory[1] == 0 && memory[2] == 0
    ensures Dump(memory, 0, 3).Ok?
    ensures ReportText(Dump(memory, 0, 3).value) == "ID,VALUE\n0,0\n1,0\n2,0\n"
  {
    ZeroRows(memory);
    ZeroReportText(Dump(memory, 0, 3).value);
  }
}
