/** Concrete runs of the assembler's line parser on the source's own test
    lines and on sample lines in the forms the slices expect. */
module AssemblerScenarios {
  import opened Results
  import opened Isa
  import Text
  import opened Assembler

  /** The parts of a line whose words are joined by single spaces. */
  lemma SplitLine(parts: seq<string>, line: string)
    requires forall w | w in parts :: w != [] && Text.NoSpace(w)
    requires line == Text.Join(" ", parts)
    ensures Text.Split(line) == parts
  {
    Text.SplitJoin(parts);
  }

  /** `int()` of the operand texts used below. */
  lemma Numbers()
    ensures Text.ParseInt("22") == Some(22) && Text.ParseInt("482") == Some(482)
    ensures Text.ParseInt("5") == Some(5) && Text.ParseInt("100") == Some(100)
    ensures Text.ParseInt("0") == Some(0) && Text.ParseInt("31") == Some(31)
  {
    TwoDigits();
    ThreeDigits();
    Text.ParseIntToString(5);
    Text.ParseIntToString(0);
    assert Text.IntToString(5) == "5" && Text.IntToString(0) == "0";
  }

  lemma TwoDigits()
    ensures Text.ParseInt("22") == Some(22) && Text.ParseInt("31") == Some(31)
  {
    Text.ParseIntToString(22);
    Text.ParseIntToString(31);
    assert Text.NatToString(2) == "2" && Text.NatToString(3) == "3";
    assert Text.IntToString(22) == "22" && Text.IntToString(31) == "31";
  }

  lemma ThreeDigits()
    ensures Text.ParseInt("482") == Some(482) && Text.ParseInt("100") == Some(100)
  {
    Text.ParseIntToString(482);
    Text.ParseIntToString(100);
    assert Text.NatToString(4) == "4" && Text.NatToString(48) == "48";
    assert Text.NatToString(1) == "1" && Text.NatToString(10) == "10";
    assert Text.IntToString(482) == "482" && Text.IntToString(100) == "100";
  }

  /** A line of the source's own test, `LOAD_CONSTANT R22, #482`, parses
      to register 22 and value 482. */
  lemma ParseLoadConstantLine(line: string)
    requires line == "LOAD_CONSTANT R22, #482"
    ensures ParseLine(line) == Ok(Some(LoadConstant(482, 22)))
  {
    Text.JoinTriple("LOAD_CONSTANT", "R22,", "#482");
    assert line == "LOAD_CONSTANT" + " " + ("R22," + " " + "#482");
    SplitLine(["LOAD_CONSTANT", "R22,", "#482"], line);
    LoadConstantParts();
  }

  lemma LoadConstantParts()
    ensures ParseParts(["LOAD_CONSTANT", "R22,", "#482"]) == Ok(Some(LoadConstant(482, 22)))
  {
    assert Text.DropFirst(Text.DropLast("R22,")) == "22";
    assert Text.DropFirst("#482") == "482";
    TwoDigits();
    ThreeDigits();
  }

  /** `MEMORY_READ R5, [100]` parses to register 5 and address 100. */
  lemma ParseMemoryReadLine(line: string)
    requires line == "MEMORY_READ R5, [100]"
    ensures ParseLine(line) == Ok(Some(MemoryRead(5, 100)))
  {
    Text.JoinTriple("MEMORY_READ", "R5,", "[100]");
    assert line == "MEMORY_READ" + " " + ("R5," + " " + "[100]");
    SplitLine(["MEMORY_READ", "R5,", "[100]"], line);
    MemoryReadParts();
  }

  lemma MemoryReadParts()
    ensures ParseParts(["MEMORY_READ", "R5,", "[100]"]) == Ok(Some(MemoryRead(5, 100)))
  {
    assert Text.DropFirst(Text.DropLast("R5,")) == "5";
    assert Text.DropLast(Text.DropFirst("[100]")) == "100";
    Numbers();
  }

  /** The slices expect `MEMORY_WRITE [R<base>] <offset> R<src>`: the
      spaced form `MEMORY_WRITE [R31 + 0], R0` hands `int()` the text `],`
      and raises `ValueError`. */
  lemma ParseSpacedMemoryWrite(line: string)
    requires line == "MEMORY_WRITE [R31 + 0], R0"
    ensures ParseLine(line) == Err(NotANumber)
  {
    var parts := ["MEMORY_WRITE", "[R31", "+", "0],", "R0"];
    Text.JoinTriple("+", "0],", "R0");
    Text.JoinTriple("MEMORY_WRITE", "[R31", "+ 0], R0");
    assert parts[2..] == ["+", "0],", "R0"] && parts[1..][1..] == parts[2..];
    assert Text.Join(" ", parts) == "MEMORY_WRITE" + " " + ("[R31" + " " + Text.Join(" ", parts[2..]));
    assert line == "MEMORY_WRITE" + " " + ("[R31" + " " + ("+" + " " + ("0]," + " " + "R0")));
    SplitLine(parts, line);
    SpacedMemoryWriteParts(parts);
  }

  lemma SpacedMemoryWriteParts(parts: seq<string>)
    requires parts == ["MEMORY_WRITE", "[R31", "+", "0],", "R0"]
    ensures ParseParts(parts) == Err(NotANumber)
  {
    assert Text.DropFirst("0],") == "],";
    assert Text.ParseInt("],") == None;
  }

  /** `MEMORY_WRITE [R31] 0 R0` fits the slices: source register 0, base
      register 31, offset 0. */
  lemma ParseTightMemoryWrite(line: string)
    requires line == "MEMORY_WRITE [R31] 0 R0"
    ensures ParseLine(line) == Ok(Some(MemoryWrite(0, 31, 0)))
  {
    var parts := ["MEMORY_WRITE", "[R31]", "0", "R0"];
    Text.JoinTriple("[R31]", "0", "R0");
    assert parts[1..] == ["[R31]", "0", "R0"];
    assert Text.Join(" ", parts) == "MEMORY_WRITE" + " " + Text.Join(" ", parts[1..]);
    assert line == "MEMORY_WRITE" + " " + ("[R31]" + " " + ("0" + " " + "R0"));
    SplitLine(parts, line);
    TightMemoryWriteParts();
  }

  lemma TightMemoryWriteParts()
    ensures ParseParts(["MEMORY_WRITE", "[R31]", "0", "R0"]) == Ok(Some(MemoryWrite(0, 31, 0)))
  {
    assert Text.DropFirst(Text.DropLast(Text.DropFirst("[R31]"))) == "31";
    assert Text.DropFirst("R0") == "0";
    Numbers();
  }

  /** `LOAD_CONSTANT R0 #52` without the comma after the register leaves
      `int()` an empty register number: `ValueError`. */
  lemma ParseLoadConstantWithoutComma(line: string)
    requires line == "LOAD_CONSTANT R0 #52"
    ensures ParseLine(line) == Err(NotANumber)
  {
    Text.JoinTriple("LOAD_CONSTANT", "R0", "#52");
    assert line == "LOAD_CONSTANT" + " " + ("R0" + " " + "#52");
    SplitLine(["LOAD_CONSTANT", "R0", "#52"], line);
    LoadConstantWithoutCommaParts();
  }

  lemma LoadConstantWithoutCommaParts()
    ensures ParseParts(["LOAD_CONSTANT", "R0", "#52"]) == Err(NotANumber)
  {
    assert Text.DropFirst(Text.DropLast("R0")) == "";
    assert Text.ParseInt("") == None;
  }

  /** An empty line has no `parts[0]` and an operand missing from a known
      mnemonic has no `parts[k]` (`IndexError`); an unknown mnemonic is
      skipped. */
  lemma ParseShortLines(short: string, unknown: string)
    requires short == "OR R1,"
    requires unknown == "HALT"
    ensures ParseLine("") == Err(MissingOperand)
    ensures ParseLine(short) == Err(MissingOperand)
    ensures ParseLine(unknown) == Ok(None)
  {
    SplitLine(["OR", "R1,"], short);
    SplitLine(["HALT"], unknown);
  }
}
