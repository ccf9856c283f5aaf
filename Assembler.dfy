/** The assembler of mirea_homework_4/assemble/assemble.py: the four
    encoders, the trace-log lines and `parse_file`'s line parser and loop.

    The encoders are stated as the words the interpreter's decoder reads:
    field slices `code[lo:hi]` are read with bit 0 the least significant bit
    of the little-endian word. The `AsWritten...` functions keep what the
    source literally builds (a big-endian `bitarray`, and a byte-oriented
    LOAD_CONSTANT starting with 0xE0); lemmas beside them exhibit words the
    decoder misreads. */
module Assembler {
  import opened Results
  import opened Bits
  import opened Isa
  import Text

  /** The Python exceptions a line can raise: `IndexError` for a missing
      operand, `ValueError` from `int()`, `OverflowError` from `int2ba` for a
      field that is negative or wider than its slot. */
  datatype Failure = MissingOperand | NotANumber | FieldOverflow

  /** The instruction word in the decoder's layout: the tag in bits [0, 3)
      and the fields at the offsets `Isa` reads them from. */
  function Word(i: Instruction): nat
    requires Fits(i)
  {
    match i
    case LoadConstant(value, reg) => 8 * value + 0x800_0000 * reg
    case MemoryRead(reg, address) => 7 + 8 * reg + 0x400 * address
    case MemoryWrite(src, base, offset) => 1 + 8 * src + 0x400 * base + 0x2_0000 * offset
    case BitwiseOr(offset, dst, base) => 3 + 8 * offset + 0x2_0000 * dst + 0x100_0000 * base
  }

  /** Bytes of the word of an instruction with this tag. */
  function WordLength(tag: nat): nat
    requires WordBits(tag).Some?
  {
    ByteCount(WordBits(tag).value)
  }

  lemma LoadConstantLayout(value: int, reg: int)
    requires Fits(LoadConstant(value, reg))
    ensures var w := Word(LoadConstant(value, reg));
      && w < Pow2(40)
      && Field(w, 0, 3) == 0 && Field(w, 3, 24) == value && Field(w, 27, 7) == reg
  {
    var w := Word(LoadConstant(value, reg));
    Pow2Table();
    FieldOfLayout(w, 0, 3, 0, 0, value + 0x100_0000 * reg);
    FieldOfLayout(w, 3, 24, 0, value, reg);
    FieldOfLayout(w, 27, 7, 8 * value, reg, 0);
  }

  lemma MemoryReadLayout(reg: int, address: int)
    requires Fits(MemoryRead(reg, address))
    ensures var w := Word(MemoryRead(reg, address));
      && w < Pow2(40)
      && Field(w, 0, 3) == 7 && Field(w, 3, 7) == reg && Field(w, 10, 25) == address
  {
    var w := Word(MemoryRead(reg, address));
    Pow2Table();
    FieldOfLayout(w, 0, 3, 0, 7, reg + 0x80 * address);
    FieldOfLayout(w, 3, 7, 7, reg, address);
    FieldOfLayout(w, 10, 25, 7 + 8 * reg, address, 0);
  }

  lemma MemoryWriteLayout(src: int, base: int, offset: int)
    requires Fits(MemoryWrite(src, base, offset))
    ensures var w := Word(MemoryWrite(src, base, offset));
      && w < Pow2(32)
      && Field(w, 0, 3) == 1 && Field(w, 3, 7) == src && Field(w, 10, 7) == base
      && Field(w, 17, 14) == offset
  {
    var w := Word(MemoryWrite(src, base, offset));
    Pow2Table();
    FieldOfLayout(w, 0, 3, 0, 1, src + 0x80 * (base + 0x80 * offset));
    FieldOfLayout(w, 3, 7, 1, src, base + 0x80 * offset);
    FieldOfLayout(w, 10, 7, 1 + 8 * src, base, offset);
    FieldOfLayout(w, 17, 14, 1 + 8 * src + 0x400 * base, offset, 0);
  }

  lemma BitwiseOrLayout(offset: int, dst: int, base: int)
    requires Fits(BitwiseOr(offset, dst, base))
    ensures var w := Word(BitwiseOr(offset, dst, base));
      && w < Pow2(32)
      && Field(w, 0, 3) == 3 && Field(w, 3, 14) == offset && Field(w, 17, 7) == dst
      && Field(w, 24, 7) == base
  {
    var w := Word(BitwiseOr(offset, dst, base));
    Pow2Table();
    FieldOfLayout(w, 0, 3, 0, 3, offset + 0x4000 * (dst + 0x80 * base));
    FieldOfLayout(w, 3, 14, 3, offset, dst + 0x80 * base);
    FieldOfLayout(w, 17, 7, 3 + 8 * offset, dst, base);
    FieldOfLayout(w, 24, 7, 3 + 8 * offset + 0x2_0000 * dst, base, 0);
  }

  /** The word of an instruction whose fields fit carries its tag in the
      low three bits, fits the tag's word length, and decodes back to the
      same instruction. */
  lemma DecodeWord(i: Instruction)
    requires Fits(i)
    ensures Field(Word(i), 0, 3) == Tag(i)
    ensures Word(i) < Pow2(8 * WordLength(Tag(i)))
    ensures Decode(Tag(i), Word(i)) == i
  {
    Pow2Table();
    assert ByteCount(40) == 5 && ByteCount(32) == 4;
    match i
    case LoadConstant(value, reg) =>
      LoadConstantLayout(value, reg);
      assert 8 * WordLength(0) == 40;
    case MemoryRead(reg, address) =>
      MemoryReadLayout(reg, address);
      assert 8 * WordLength(7) == 40;
    case MemoryWrite(src, base, offset) =>
      MemoryWriteLayout(src, base, offset);
      assert 8 * WordLength(1) == 32;
    case BitwiseOr(offset, dst, base) =>
      BitwiseOrLayout(offset, dst, base);
      assert 8 * WordLength(3) == 32;
  }

  /** The bytes written for an instruction whose fields fit. */
  function Encode(i: Instruction): (bytes: seq<Byte>)
    requires Fits(i)
    ensures |bytes| == WordLength(Tag(i))
    ensures bytes[0] % 8 == Tag(i)
    ensures FromLittleEndian(bytes) == Word(i)
  {
    DecodeWord(i);
    var bytes := ToLittleEndian(Word(i), WordLength(Tag(i)));
    LittleEndianRoundTrip(Word(i), WordLength(Tag(i)));
    LowBitsOfFirstByte(bytes);
    bytes
  }

  /** Encoding then decoding with the handler the first byte selects gives
      the instruction back. */
  lemma DecodeEncode(i: Instruction)
    requires Fits(i)
    ensures var bytes := Encode(i);
      && WordBits(bytes[0] % 8).Some?
      && |bytes| == WordLength(bytes[0] % 8)
      && Decode(bytes[0] % 8, FromLittleEndian(bytes)) == i
  {
    DecodeWord(i);
  }

  /** `load_constant(B, C)` with the decoder's layout; like the source it
      masks B to 24 bits and C to 7 bits instead of rejecting them. */
  function EncodeLoadConstant(value: int, reg: int): (bytes: seq<Byte>)
    ensures |bytes| == 5 && bytes[0] % 8 == 0
    ensures Decode(0, FromLittleEndian(bytes)) == LoadConstant(value % 0x100_0000, reg % 0x80)
  {
    Pow2Table();
    var i := LoadConstant(value % 0x100_0000, reg % 0x80);
    DecodeEncode(i);
    Encode(i)
  }

  /** `memory_read(B, C)`: tag 7, register B at [3, 10), address C at
      [10, 35) of a 40-bit word; a field that does not fit is an error. */
  function EncodeMemoryRead(reg: int, address: int): (r: Result<seq<Byte>, Failure>)
    ensures r.Ok? <==> 0 <= reg < 0x80 && 0 <= address < 0x200_0000
    ensures r.Ok? ==>
      var w := FromLittleEndian(r.value);
      && |r.value| == 5
      && Field(w, 0, 3) == 7 && Field(w, 3, 7) == reg && Field(w, 10, 25) == address
  {
    Pow2Table();
    var i := MemoryRead(reg, address);
    if Fits(i) then
      MemoryReadLayout(reg, address);
      Ok(Encode(i))
    else Err(FieldOverflow)
  }

  /** `memory_write(B, C, D)`: tag 1, B at [3, 10), C at [10, 17), D at
      [17, 31) of a 32-bit word; a field that does not fit is an error. */
  function EncodeMemoryWrite(src: int, base: int, offset: int): (r: Result<seq<Byte>, Failure>)
    ensures r.Ok? <==> 0 <= src < 0x80 && 0 <= base < 0x80 && 0 <= offset < 0x4000
    ensures r.Ok? ==>
      var w := FromLittleEndian(r.value);
      && |r.value| == 4
      && Field(w, 0, 3) == 1 && Field(w, 3, 7) == src && Field(w, 10, 7) == base
      && Field(w, 17, 14) == offset
  {
    Pow2Table();
    var i := MemoryWrite(src, base, offset);
    if Fits(i) then
      MemoryWriteLayout(src, base, offset);
      Ok(Encode(i))
    else Err(FieldOverflow)
  }

  /** `bitwise_or(B, C, D)`: tag 3, B at [3, 17), C at [17, 24), D at
      [24, 31) of a 32-bit word; a field that does not fit is an error. */
  function EncodeBitwiseOr(offset: int, dst: int, base: int): (r: Result<seq<Byte>, Failure>)
    ensures r.Ok? <==> 0 <= offset < 0x4000 && 0 <= dst < 0x80 && 0 <= base < 0x80
    ensures r.Ok? ==>
      var w := FromLittleEndian(r.value);
      && |r.value| == 4
      && Field(w, 0, 3) == 3 && Field(w, 3, 14) == offset && Field(w, 17, 7) == dst
      && Field(w, 24, 7) == base
  {
    Pow2Table();
    var i := BitwiseOr(offset, dst, base);
    if Fits(i) then
      BitwiseOrLayout(offset, dst, base);
      Ok(Encode(i))
    else Err(FieldOverflow)
  }

  /** The instruction a word encodes: LOAD_CONSTANT's fields are masked
      to their widths, the other encoders reject what does not fit. */
  function Stored(i: Instruction): Instruction
  {
    match i
    case LoadConstant(value, reg) => LoadConstant(value % 0x100_0000, reg % 0x80)
    case _ => i
  }

  /** The encoder `parse_file` calls for a parsed instruction: it fails
      exactly when a checked field does not fit, and otherwise the bytes
      carry the instruction's tag and decode to the instruction stored. */
  function Emit(i: Instruction): (r: Result<seq<Byte>, Failure>)
    ensures r.Ok? <==> i.LoadConstant? || Fits(i)
    ensures r.Ok? ==>
      && r.value != [] && r.value[0] % 8 == Tag(i)
      && |r.value| == WordLength(Tag(i))
      && Decode(Tag(i), FromLittleEndian(r.value)) == Stored(i)
  {
    Pow2Table();
    match i
    case LoadConstant(value, reg) => Ok(EncodeLoadConstant(value, reg))
    case MemoryRead(reg, address) =>
      var r := EncodeMemoryRead(reg, address);
      if r.Ok? then DecodeEncode(i); r else r
    case MemoryWrite(src, base, offset) =>
      var r := EncodeMemoryWrite(src, base, offset);
      if r.Ok? then DecodeEncode(i); r else r
    case BitwiseOr(offset, dst, base) =>
      var r := EncodeBitwiseOr(offset, dst, base);
      if r.Ok? then DecodeEncode(i); r else r
  }

  /** The mnemonic an encoder writes at the head of its log line. */
  function Mnemonic(i: Instruction): string
  {
    match i
    case LoadConstant(_, _) => "LOAD_CONSTANT"
    case MemoryRead(_, _) => "MEMORY_READ"
    case MemoryWrite(_, _, _) => "MEMORY_WRITE"
    case BitwiseOr(_, _, _) => "OR"
  }

  /** The operands in the order the encoder receives them as B, C, D. */
  function Operands(i: Instruction): (operands: seq<int>)
    ensures |operands| == if i.LoadConstant? || i.MemoryRead? then 2 else 3
  {
    match i
    case LoadConstant(value, reg) => [value, reg]
    case MemoryRead(reg, address) => [reg, address]
    case MemoryWrite(src, base, offset) => [src, base, offset]
    case BitwiseOr(offset, dst, base) => [offset, dst, base]
  }

  /** An operand in decimal, followed by a comma unless it is the last. */
  function NumberWord(n: int, last: bool): string
  {
    Text.IntToString(n) + (if last then "" else ",")
  }

  /** The words of a log line: the mnemonic with a colon, then `B = b,`
      and `C = c`, or `C = c,` and `D = d` for three operands. */
  function LogWords(i: Instruction): seq<string>
  {
    var head, operands := Mnemonic(i) + ":", Operands(i);
    if |operands| == 2 then
      [head, "B", "=", NumberWord(operands[0], false), "C", "=", NumberWord(operands[1], true)]
    else
      [head, "B", "=", NumberWord(operands[0], false), "C", "=", NumberWord(operands[1], false),
       "D", "=", NumberWord(operands[2], true)]
  }

  /** The line an encoder appends to the trace log (its text before the
      newline), `NAME: B = b, C = c[, D = d]`; LOAD_CONSTANT logs nothing. */
  function LogLine(i: Instruction): (line: Option<string>)
    ensures line.None? <==> i.LoadConstant?
  {
    if i.LoadConstant? then None else Some(Text.Join(" ", LogWords(i)))
  }

  /** A decimal, with or without one trailing comma, is one word, and
      `int()` reads it back once the comma is stripped. */
  lemma NumberReadsBack(n: int, last: bool)
    ensures var w := NumberWord(n, last);
      && w != [] && Text.NoSpace(w)
      && Text.ParseInt(Text.RStrip(w, ',')) == Some(n)
  {
    var number := Text.IntToString(n);
    Text.IntToStringWord(n);
    Text.ParseIntToString(n);
    Text.RStripAppended(number, ',');
    assert number + [] == number;
  }

  /** The mnemonic with its colon is one word. */
  lemma MnemonicWord(i: Instruction)
    ensures Mnemonic(i) + ":" != [] && Text.NoSpace(Mnemonic(i) + ":")
  {
    var w := Mnemonic(i) + ":";
    forall j | 0 <= j < |w|
      ensures !Text.IsSpace(w[j])
    {
      assert w[j] == ':' || 'A' <= w[j] <= 'Z' || w[j] == '_';
    }
  }

  /** The separators of a log line are words. */
  lemma Separators()
    ensures "B" != [] && Text.NoSpace("B") && "C" != [] && Text.NoSpace("C")
    ensures "D" != [] && Text.NoSpace("D") && "=" != [] && Text.NoSpace("=")
  {
    Text.PrintableChar('B');
    Text.PrintableChar('C');
    Text.PrintableChar('D');
    Text.PrintableChar('=');
  }

  /** The seven words of a two-operand log line are words. */
  lemma TwoFieldWords(head: string, b: string, c: string)
    requires head != [] && Text.NoSpace(head) && b != [] && Text.NoSpace(b) && c != [] && Text.NoSpace(c)
    ensures forall w | w in [head, "B", "=", b, "C", "=", c] :: w != [] && Text.NoSpace(w)
  {
    Separators();
  }

  /** The ten words of a three-operand log line are words. */
  lemma ThreeFieldWords(head: string, b: string, c: string, d: string)
    requires head != [] && Text.NoSpace(head) && b != [] && Text.NoSpace(b) && c != [] && Text.NoSpace(c)
    requires d != [] && Text.NoSpace(d)
    ensures forall w | w in [head, "B", "=", b, "C", "=", c, "D", "=", d] :: w != [] && Text.NoSpace(w)
  {
    Separators();
  }

  /** Every word of a log line is one whitespace-free word. */
  lemma LogWordsAreWords(i: Instruction)
    ensures forall w | w in LogWords(i) :: w != [] && Text.NoSpace(w)
  {
    var head, operands := Mnemonic(i) + ":", Operands(i);
    MnemonicWord(i);
    var b, c := NumberWord(operands[0], false), NumberWord(operands[1], |operands| == 2);
    NumberReadsBack(operands[0], false);
    NumberReadsBack(operands[1], |operands| == 2);
    if |operands| == 2 {
      TwoFieldWords(head, b, c);
    } else {
      var d := NumberWord(operands[2], true);
      NumberReadsBack(operands[2], true);
      ThreeFieldWords(head, b, c, d);
    }
  }

  /** The log line of MEMORY_READ, MEMORY_WRITE and OR records the
      instruction: split on whitespace it starts with the mnemonic and a
      colon, then names B, C (and D) in turn, each followed by `=` and a
      number that reads back as that operand. */
  lemma LogLineReadsBack(i: Instruction)
    requires !i.LoadConstant?
    ensures var words := Text.Split(LogLine(i).value);
      var operands := Operands(i);
      && |words| == 1 + 3 * |operands|
      && words[0] == Mnemonic(i) + ":"
      && forall k | 0 <= k < |operands| ::
        && words[3 * k + 1] == ["BCD"[k]]
        && words[3 * k + 2] == "="
        && Text.ParseInt(Text.RStrip(words[3 * k + 3], ',')) == Some(operands[k])
  {
    var operands := Operands(i);
    var words := LogWords(i);
    LogWordsAreWords(i);
    Text.SplitJoin(words);
    LogWordsAt(i);
    forall k | 0 <= k < |operands|
      ensures Text.ParseInt(Text.RStrip(words[3 * k + 3], ',')) == Some(operands[k])
    {
      NumberReadsBack(operands[k], k + 1 == |operands|);
    }
  }

  /** Where each operand's words sit in a log line. */
  lemma LogWordsAt(i: Instruction)
    ensures var words, operands := LogWords(i), Operands(i);
      && |words| == 1 + 3 * |operands|
      && words[0] == Mnemonic(i) + ":"
      && forall k | 0 <= k < |operands| ::
        && words[3 * k + 1] == ["BCD"[k]]
        && words[3 * k + 2] == "="
        && words[3 * k + 3] == NumberWord(operands[k], k + 1 == |operands|)
  {
    var words, operands := LogWords(i), Operands(i);
    forall k | 0 <= k < |operands|
      ensures words[3 * k + 1] == ["BCD"[k]] && words[3 * k + 2] == "="
      ensures words[3 * k + 3] == NumberWord(operands[k], k + 1 == |operands|)
    {
      if k == 0 {
        assert "BCD"[0] == 'B';
      } else if k == 1 {
        assert "BCD"[1] == 'C';
      } else {
        assert "BCD"[2] == 'D';
      }
    }
  }

  /** Python's `int(text)` as a `Result`: it accepts only numerals, any
      other text is a `ValueError`, and it reads back every rendered int. */
  function Int(text: string): (r: Result<int, Failure>)
    ensures r.Ok? ==> Text.NumeralChars(text) && Text.NoSpace(text)
    ensures r.Err? ==> r.error == NotANumber
    ensures forall n | text == Text.IntToString(n) :: r == Ok(n)
  {
    Text.ParseIntAccepts(text);
    assert forall n | text == Text.IntToString(n) :: Text.ParseInt(text) == Some(n) by {
      forall n | text == Text.IntToString(n)
        ensures Text.ParseInt(text) == Some(n)
      {
        Text.ParseIntToString(n);
      }
    }
    match Text.ParseInt(text)
    case Some(n) => Ok(n)
    case None => Err(NotANumber)
  }

  /** One line of `parse_file`: the mnemonic and the operands cut out of
      the whitespace-separated parts by the source's fixed slices. An
      unknown mnemonic is skipped (`None`); an empty line has no `parts[0]`. */
  function ParseLine(line: string): Result<Option<Instruction>, Failure>
  {
    ParseParts(Text.Split(line))
  }

  /** `parse_file`'s dispatch on the parts of a line. */
  function ParseParts(parts: seq<string>): Result<Option<Instruction>, Failure>
  {
    if parts == [] then Err(MissingOperand)
    else if parts[0] == "LOAD_CONSTANT" then ParseLoadConstant(parts)
    else if parts[0] == "MEMORY_READ" then ParseMemoryRead(parts)
    else if parts[0] == "MEMORY_WRITE" then ParseMemoryWrite(parts)
    else if parts[0] == "OR" then ParseBitwiseOr(parts)
    else Ok(None)
  }

  /** `LOAD_CONSTANT R<c>, #<b>`: `parts[1][:-1]` is the register, `parts[2][1:]` the value. */
  function ParseLoadConstant(parts: seq<string>): Result<Option<Instruction>, Failure>
  {
    if |parts| < 3 then Err(MissingOperand)
    else
      var reg, value := Text.DropLast(parts[1]), Text.DropFirst(parts[2]);
      match (Int(value), Int(Text.DropFirst(reg)))
      case (Ok(b), Ok(c)) => Ok(Some(LoadConstant(b, c)))
      case _ => Err(NotANumber)
  }

  /** `MEMORY_READ R<c>, [<a>]`: `parts[1][:-1]` is the register, `parts[2][1:-1]` the address. */
  function ParseMemoryRead(parts: seq<string>): Result<Option<Instruction>, Failure>
  {
    if |parts| < 3 then Err(MissingOperand)
    else
      var reg, address := Text.DropLast(parts[1]), Text.DropLast(Text.DropFirst(parts[2]));
      match (Int(Text.DropFirst(reg)), Int(address))
      case (Ok(b), Ok(c)) => Ok(Some(MemoryRead(b, c)))
      case _ => Err(NotANumber)
  }

  /** `MEMORY_WRITE [R<c>] <d> R<b>`: `parts[1][1:-1]` is the base, `parts[2]`
      the offset and `parts[3]` the source register. */
  function ParseMemoryWrite(parts: seq<string>): Result<Option<Instruction>, Failure>
  {
    if |parts| < 4 then Err(MissingOperand)
    else
      var operand, offset, reg := Text.DropLast(Text.DropFirst(parts[1])), parts[2], parts[3];
      match (Int(Text.DropFirst(reg)), Int(Text.DropFirst(operand)), Int(offset))
      case (Ok(b), Ok(c), Ok(d)) => Ok(Some(MemoryWrite(b, c, d)))
      case _ => Err(NotANumber)
  }

  /** `OR R<c>, [<d> <b>]`: `parts[1][:-1]` is the destination, `parts[2][1:]`
      the base and `parts[3][:-1]` the offset. */
  function ParseBitwiseOr(parts: seq<string>): Result<Option<Instruction>, Failure>
  {
    if |parts| < 4 then Err(MissingOperand)
    else
      var reg, address, offset := Text.DropLast(parts[1]), Text.DropFirst(parts[2]), Text.DropLast(parts[3]);
      match (Int(offset), Int(Text.DropFirst(reg)), Int(address))
      case (Ok(b), Ok(c), Ok(d)) => Ok(Some(BitwiseOr(b, c, d)))
      case _ => Err(NotANumber)
  }

  /** The words of the source line `parse_file`'s slices are written for:
      `R<c>,` then `#<b>`; `R<c>,` then `[<a>]`; `[R<c>] <d> R<b>`; and
      `R<c>,` then `[<d>` and `<b>]`. */
  function LineWords(i: Instruction): seq<string>
  {
    match i
    case LoadConstant(b, c) =>
      ["LOAD_CONSTANT", "R" + Text.IntToString(c) + ",", "#" + Text.IntToString(b)]
    case MemoryRead(c, a) =>
      ["MEMORY_READ", "R" + Text.IntToString(c) + ",", "[" + Text.IntToString(a) + "]"]
    case MemoryWrite(b, c, d) =>
      ["MEMORY_WRITE", "[R" + Text.IntToString(c) + "]", Text.IntToString(d), "R" + Text.IntToString(b)]
    case BitwiseOr(b, c, d) =>
      ["OR", "R" + Text.IntToString(c) + ",", "[" + Text.IntToString(d), Text.IntToString(b) + "]"]
  }

  /** An instruction written as a line of assembly text. */
  function SourceLine(i: Instruction): string
  {
    Text.Join(" ", LineWords(i))
  }

  /** A rendered int framed by printable texts is one word. */
  lemma FramedNumber(p: string, n: int, q: string)
    requires forall j | 0 <= j < |p| :: '!' <= p[j] <= '~'
    requires forall j | 0 <= j < |q| :: '!' <= q[j] <= '~'
    ensures p + Text.IntToString(n) + q != [] && Text.NoSpace(p + Text.IntToString(n) + q)
  {
    Text.Printable(p);
    Text.Printable(q);
    Text.IntToStringWord(n);
    Text.NoSpaceConcat(p, Text.IntToString(n), q);
  }

  /** Slicing `[1:]` and `[:-1]` off a framed text leaves the text. */
  lemma Unframed(p: char, s: string, q: char)
    ensures Text.DropFirst([p] + s) == s
    ensures Text.DropLast(s + [q]) == s
    ensures Text.DropLast(Text.DropFirst([p] + s + [q])) == s
    ensures Text.DropFirst(Text.DropLast([p] + s + [q])) == s
  {
    assert ([p] + s)[1..] == s;
    assert (s + [q])[..|s|] == s;
    assert ([p] + s + [q])[1..] == s + [q];
    assert ([p] + s + [q])[..|s| + 1] == [p] + s;
  }

  /** Three words joined by spaces split back into them. */
  lemma ThreeWords(x: string, y: string, z: string)
    requires x != [] && Text.NoSpace(x) && y != [] && Text.NoSpace(y) && z != [] && Text.NoSpace(z)
    ensures Text.Split(Text.Join(" ", [x, y, z])) == [x, y, z]
  {
    Text.SplitJoin([x, y, z]);
  }

  /** Four words joined by spaces split back into them. */
  lemma FourWords(w: string, x: string, y: string, z: string)
    requires w != [] && Text.NoSpace(w) && x != [] && Text.NoSpace(x)
    requires y != [] && Text.NoSpace(y) && z != [] && Text.NoSpace(z)
    ensures Text.Split(Text.Join(" ", [w, x, y, z])) == [w, x, y, z]
  {
    Text.SplitJoin([w, x, y, z]);
  }

  /** The line words are words, so `split()` finds exactly them. */
  lemma SplitSourceLine(i: Instruction)
    ensures Text.Split(SourceLine(i)) == LineWords(i)
  {
    match i
    case LoadConstant(b, c) =>
      Text.Printable("LOAD_CONSTANT");
      FramedNumber("R", c, ",");
      FramedNumber("#", b, "");
      assert "#" + Text.IntToString(b) == "#" + Text.IntToString(b) + "";
      ThreeWords("LOAD_CONSTANT", "R" + Text.IntToString(c) + ",", "#" + Text.IntToString(b));
    case MemoryRead(c, a) =>
      Text.Printable("MEMORY_READ");
      FramedNumber("R", c, ",");
      FramedNumber("[", a, "]");
      ThreeWords("MEMORY_READ", "R" + Text.IntToString(c) + ",", "[" + Text.IntToString(a) + "]");
    case MemoryWrite(b, c, d) =>
      Text.Printable("MEMORY_WRITE");
      FramedNumber("[R", c, "]");
      FramedNumber("", d, "");
      FramedNumber("R", b, "");
      assert Text.IntToString(d) == "" + Text.IntToString(d) + "";
      assert "R" + Text.IntToString(b) == "R" + Text.IntToString(b) + "";
      FourWords("MEMORY_WRITE", "[R" + Text.IntToString(c) + "]", Text.IntToString(d), "R" + Text.IntToString(b));
    case BitwiseOr(b, c, d) =>
      Text.Printable("OR");
      FramedNumber("R", c, ",");
      FramedNumber("[", d, "");
      FramedNumber("", b, "]");
      assert "[" + Text.IntToString(d) == "[" + Text.IntToString(d) + "";
      assert Text.IntToString(b) + "]" == "" + Text.IntToString(b) + "]";
      FourWords("OR", "R" + Text.IntToString(c) + ",", "[" + Text.IntToString(d), Text.IntToString(b) + "]");
  }

  /** The LOAD_CONSTANT branch, given what its two slices parse to. */
  lemma LoadConstantFields(parts: seq<string>, b: int, c: int)
    requires |parts| == 3
    requires Int(Text.DropFirst(parts[2])) == Ok(b)
    requires Int(Text.DropFirst(Text.DropLast(parts[1]))) == Ok(c)
    ensures ParseLoadConstant(parts) == Ok(Some(LoadConstant(b, c)))
  {
  }

  /** The MEMORY_READ branch, given what its two slices parse to. */
  lemma MemoryReadFields(parts: seq<string>, c: int, a: int)
    requires |parts| == 3
    requires Int(Text.DropFirst(Text.DropLast(parts[1]))) == Ok(c)
    requires Int(Text.DropLast(Text.DropFirst(parts[2]))) == Ok(a)
    ensures ParseMemoryRead(parts) == Ok(Some(MemoryRead(c, a)))
  {
  }

  /** The MEMORY_WRITE branch, given what its three slices parse to. */
  lemma MemoryWriteFields(parts: seq<string>, b: int, c: int, d: int)
    requires |parts| == 4
    requires Int(Text.DropFirst(parts[3])) == Ok(b)
    requires Int(Text.DropFirst(Text.DropLast(Text.DropFirst(parts[1])))) == Ok(c)
    requires Int(parts[2]) == Ok(d)
    ensures ParseMemoryWrite(parts) == Ok(Some(MemoryWrite(b, c, d)))
  {
  }

  /** The OR branch, given what its three slices parse to. */
  lemma BitwiseOrFields(parts: seq<string>, b: int, c: int, d: int)
    requires |parts| == 4
    requires Int(Text.DropLast(parts[3])) == Ok(b)
    requires Int(Text.DropFirst(Text.DropLast(parts[1]))) == Ok(c)
    requires Int(Text.DropFirst(parts[2])) == Ok(d)
    ensures ParseBitwiseOr(parts) == Ok(Some(BitwiseOr(b, c, d)))
  {
  }

  lemma ParseLoadConstantSource(b: int, c: int)
    ensures ParseLoadConstant(LineWords(LoadConstant(b, c))) == Ok(Some(LoadConstant(b, c)))
  {
    var parts := LineWords(LoadConstant(b, c));
    assert Int(Text.DropFirst(parts[2])) == Ok(b) by {
      assert parts[2] == ['#'] + Text.IntToString(b);
      Unframed('#', Text.IntToString(b), ' ');
    }
    assert Int(Text.DropFirst(Text.DropLast(parts[1]))) == Ok(c) by {
      assert parts[1] == ['R'] + Text.IntToString(c) + [','];
      Unframed('R', Text.IntToString(c), ',');
    }
    LoadConstantFields(parts, b, c);
  }

  lemma ParseMemoryReadSource(c: int, a: int)
    ensures ParseMemoryRead(LineWords(MemoryRead(c, a))) == Ok(Some(MemoryRead(c, a)))
  {
    var parts := LineWords(MemoryRead(c, a));
    assert Int(Text.DropFirst(Text.DropLast(parts[1]))) == Ok(c) by {
      assert parts[1] == ['R'] + Text.IntToString(c) + [','];
      Unframed('R', Text.IntToString(c), ',');
    }
    assert Int(Text.DropLast(Text.DropFirst(parts[2]))) == Ok(a) by {
      assert parts[2] == ['['] + Text.IntToString(a) + [']'];
      Unframed('[', Text.IntToString(a), ']');
    }
    MemoryReadFields(parts, c, a);
  }

  lemma ParseMemoryWriteSource(b: int, c: int, d: int)
    ensures ParseMemoryWrite(LineWords(MemoryWrite(b, c, d))) == Ok(Some(MemoryWrite(b, c, d)))
  {
    var parts := LineWords(MemoryWrite(b, c, d));
    assert Int(Text.DropFirst(parts[3])) == Ok(b) by {
      assert parts[3] == ['R'] + Text.IntToString(b);
      Unframed('R', Text.IntToString(b), ' ');
    }
    assert Int(Text.DropFirst(Text.DropLast(Text.DropFirst(parts[1])))) == Ok(c) by {
      var t := Text.IntToString(c);
      assert parts[1] == ['['] + (['R'] + t) + [']'] by {
        assert "[R" == ['['] + ['R'];
      }
      Unframed('[', ['R'] + t, ']');
      Unframed('R', t, ' ');
    }
    assert Int(parts[2]) == Ok(d) by {
      assert parts[2] == Text.IntToString(d);
    }
    MemoryWriteFields(parts, b, c, d);
  }

  lemma ParseBitwiseOrSource(b: int, c: int, d: int)
    ensures ParseBitwiseOr(LineWords(BitwiseOr(b, c, d))) == Ok(Some(BitwiseOr(b, c, d)))
  {
    var parts := LineWords(BitwiseOr(b, c, d));
    assert Int(Text.DropLast(parts[3])) == Ok(b) by {
      assert parts[3] == Text.IntToString(b) + [']'];
      Unframed(' ', Text.IntToString(b), ']');
    }
    assert Int(Text.DropFirst(Text.DropLast(parts[1]))) == Ok(c) by {
      assert parts[1] == ['R'] + Text.IntToString(c) + [','];
      Unframed('R', Text.IntToString(c), ',');
    }
    assert Int(Text.DropFirst(parts[2])) == Ok(d) by {
      assert parts[2] == ['['] + Text.IntToString(d);
      Unframed('[', Text.IntToString(d), ' ');
    }
    BitwiseOrFields(parts, b, c, d);
  }

  /** Round trip of the line parser: `parse_file` reads the line written
      for an instruction back as that instruction, for every operand value. */
  lemma ParseSourceLine(i: Instruction)
    ensures ParseLine(SourceLine(i)) == Ok(Some(i))
  {
    SplitSourceLine(i);
    var words := LineWords(i);
    assert ParseLine(SourceLine(i)) == ParseParts(words);
    match i
    case LoadConstant(b, c) =>
      assert words[0] == "LOAD_CONSTANT";
      ParseLoadConstantSource(b, c);
    case MemoryRead(c, a) =>
      assert words[0] == "MEMORY_READ" && |words[0]| != |"LOAD_CONSTANT"|;
      ParseMemoryReadSource(c, a);
    case MemoryWrite(b, c, d) =>
      assert words[0] == "MEMORY_WRITE" && |words[0]| != |"LOAD_CONSTANT"| && |words[0]| != |"MEMORY_READ"|;
      ParseMemoryWriteSource(b, c, d);
    case BitwiseOr(b, c, d) =>
      assert words[0] == "OR" && |words[0]| != |"LOAD_CONSTANT"| && |words[0]| != |"MEMORY_READ"| && |words[0]| != |"MEMORY_WRITE"|;
      ParseBitwiseOrSource(b, c, d);
  }

  /** What `parse_file` produces from some lines: the bytes written, the
      log lines appended, and the exception that stopped it, if any. */
  datatype Listing = Listing(binary: seq<Byte>, log: seq<string>, failure: Option<Failure>)

  /** `bytes` and `lines` written before the listing `rest`. */
  function Prepend(bytes: seq<Byte>, lines: seq<string>, rest: Listing): Listing
  {
    Listing(bytes + rest.binary, lines + rest.log, rest.failure)
  }

  lemma PrependNothing(l: Listing)
    ensures Prepend([], [], l) == l
  {
    assert [] + l.binary == l.binary && [] + l.log == l.log;
  }

  /** The log lines one instruction appends. */
  function Logged(i: Instruction): seq<string>
  {
    match LogLine(i)
    case None => []
    case Some(line) => [line]
  }

  /** One line's share of the output: the bytes written and the lines
      logged, or the exception raised. */
  type Share = Result<(seq<Byte>, seq<string>), Failure>

  /** The share of one line; a line with an unknown mnemonic adds nothing. */
  function AssembleLine(line: string): Share
  {
    match ParseLine(line)
    case Err(f) => Err(f)
    case Ok(None) => Ok(([], []))
    case Ok(Some(i)) =>
      match Emit(i)
      case Err(f) => Err(f)
      case Ok(bytes) => Ok((bytes, Logged(i)))
  }

  /** The shares of the lines, in order. */
  function Shares(lines: seq<string>): (shares: seq<Share>)
    ensures |shares| == |lines|
    ensures forall j :: 0 <= j < |lines| ==> shares[j] == AssembleLine(lines[j])
  {
    if lines == [] then [] else [AssembleLine(lines[0])] + Shares(lines[1..])
  }

  /** The shares written one after another; the first exception ends the
      output. */
  function Collect(shares: seq<Share>): Listing
  {
    if shares == [] then Listing([], [], None)
    else
      match shares[0]
      case Err(f) => Listing([], [], Some(f))
      case Ok((bytes, logged)) => Prepend(bytes, logged, Collect(shares[1..]))
  }

  /** `parse_file` over all lines: each line is parsed, encoded, written and
      logged in turn; the first exception ends the loop (the single
      `try` encloses it), keeping what earlier lines wrote. */
  function AssembleLines(lines: seq<string>): Listing
  {
    Collect(Shares(lines))
  }

  /** After writing `written` and `logged`, writing share `k` moves them
      on to share `k + 1`. */
  lemma CollectStep(shares: seq<Share>, k: nat, written: seq<Byte>, logged: seq<string>)
    requires k < |shares| && shares[k].Ok?
    ensures Prepend(written, logged, Collect(shares[k..]))
      == Prepend(written + shares[k].value.0, logged + shares[k].value.1, Collect(shares[k + 1..]))
  {
    assert shares[k..][0] == shares[k] && shares[k..][1..] == shares[k + 1..];
    var rest := Collect(shares[k + 1..]);
    Text.AppendAssoc(written, shares[k].value.0, rest.binary);
    Text.AppendAssoc(logged, shares[k].value.1, rest.log);
  }

  /** A share that is an exception ends the output with it. */
  lemma CollectStop(shares: seq<Share>, k: nat, written: seq<Byte>, logged: seq<string>)
    requires k < |shares| && shares[k].Err?
    ensures Prepend(written, logged, Collect(shares[k..]))
      == Listing(written, logged, Some(shares[k].error))
  {
    assert shares[k..][0] == shares[k];
    assert written + [] == written && logged + [] == logged;
  }

  /** With no shares left the output is complete. */
  lemma CollectEnd(shares: seq<Share>, written: seq<Byte>, logged: seq<string>)
    ensures Prepend(written, logged, Collect(shares[|shares|..])) == Listing(written, logged, None)
  {
    assert shares[|shares|..] == [];
    assert written + [] == written && logged + [] == logged;
  }

  /** Writing two runs of shares back to back: after an exception nothing
      later is written; otherwise the second run's output follows the
      first's. */
  lemma {:induction false} CollectAppend(first: seq<Share>, second: seq<Share>)
    ensures var a := Collect(first);
      Collect(first + second) ==
        if a.failure.Some? then a else Prepend(a.binary, a.log, Collect(second))
  {
    if first == [] {
      assert first + second == second;
    } else {
      assert (first + second)[0] == first[0];
      assert (first + second)[1..] == first[1..] + second;
      CollectAppend(first[1..], second);
      match first[0]
      case Err(f) =>
      case Ok((bytes, logged)) =>
        var rest, tail := Collect(first[1..]), Collect(second);
        if rest.failure.None? {
          Text.AppendAssoc(bytes, rest.binary, tail.binary);
          Text.AppendAssoc(logged, rest.log, tail.log);
        }
    }
  }

  /** Assembling two files' lines back to back: after an exception in the
      first nothing of the second is processed; otherwise the second's
      output follows the first's. */
  lemma AssembleAppend(first: seq<string>, second: seq<string>)
    ensures var a := AssembleLines(first);
      AssembleLines(first + second) ==
        if a.failure.Some? then a else Prepend(a.binary, a.log, AssembleLines(second))
  {
    SharesAppend(first, second);
    CollectAppend(Shares(first), Shares(second));
  }

  lemma {:induction false} SharesAppend(first: seq<string>, second: seq<string>)
    ensures Shares(first + second) == Shares(first) + Shares(second)
    decreases |first|
  {
    if first == [] {
      assert first + second == second;
    } else {
      var lines := first + second;
      assert lines[0] == first[0] && lines[1..] == first[1..] + second;
      SharesAppend(first[1..], second);
      Text.AppendAssoc([AssembleLine(first[0])], Shares(first[1..]), Shares(second));
    }
  }

  /** The assembler object: the binary artifact and the trace log as they
      grow. */
  class Assembler {
    var binary: seq<Byte>
    var log: seq<string>

    constructor ()
      ensures binary == [] && log == []
    {
      binary := [];
      log := [];
    }

    /** The body of `parse_file`'s loop for one line: parse it, encode the
        instruction, append its bytes and its log line. */
    method AssembleNextLine(line: string) returns (failure: Option<Failure>)
      modifies this
      ensures var out := AssembleLine(line);
        && (failure.Some? <==> out.Err?)
        && (out.Err? ==> failure.value == out.error && binary == old(binary) && log == old(log))
        && (out.Ok? ==> binary == old(binary) + out.value.0 && log == old(log) + out.value.1)
    {
      var parsed := ParseLine(line);
      if parsed.Err? {
        return Some(parsed.error);
      }
      if parsed.value.Some? {
        var i := parsed.value.value;
        var bytes := Emit(i);
        if bytes.Err? {
          return Some(bytes.error);
        }
        binary := binary + bytes.value;
        log := log + Logged(i);
      } else {
        assert binary == binary + [] && log == log + [];
      }
      failure := None;
    }

    /** `parse_file`: processes the lines in order, appending each word to
        the artifact and each log line to the log, and stops at the first
        exception, which it reports. */
    method ParseFile(lines: seq<string>) returns (failure: Option<Failure>)
      modifies this
      ensures var l := AssembleLines(lines);
        && binary == old(binary) + l.binary
        && log == old(log) + l.log
        && failure == l.failure
    {
      ghost var shares := Shares(lines);
      var k := 0;
      assert shares[0..] == shares;
      while k < |lines|
        invariant k <= |lines|
        invariant Prepend(old(binary), old(log), Collect(shares))
          == Prepend(binary, log, Collect(shares[k..]))
        decreases |lines| - k
      {
        ghost var written, logged := binary, log;
        failure := AssembleNextLine(lines[k]);
        if failure.Some? {
          CollectStop(shares, k, binary, log);
          return;
        }
        CollectStep(shares, k, written, logged);
        k := k + 1;
      }
      CollectEnd(shares, binary, log);
      failure := None;
    }
  }

  /** `int2ba(value, length=width)`: the `width` low bits of `value`, most
      significant first (the default big-endian bit order). */
  function BigEndianBits(value: nat, width: nat): (bits: seq<bool>)
    ensures |bits| == width
    ensures forall k :: 0 <= k < width ==> bits[k] == Bit(value, width - 1 - k)
  {
    if width == 0 then []
    else
      var high := BigEndianBits(value / 2, width - 1);
      BitsOfHalf(value, width - 1);
      high + [value % 2 == 1]
  }

  /** Bit `j + 1` of `value` is bit `j` of `value / 2`, for every `j < n`. */
  lemma BitsOfHalf(value: nat, n: nat)
    ensures forall j :: 0 <= j < n ==> Bit(value / 2, j) == Bit(value, j + 1)
  {
    forall j | 0 <= j < n
      ensures Bit(value / 2, j) == Bit(value, j + 1)
    {
      BitOfHalf(value, j);
    }
  }

  /** The slice assignment `bits[start:start + |field|] = field`. */
  function Overwrite(bits: seq<bool>, start: nat, field: seq<bool>): (r: seq<bool>)
    requires start + |field| <= |bits|
    ensures |r| == |bits|
    ensures forall j :: 0 <= j < |bits| ==>
      r[j] == if start <= j < start + |field| then field[j - start] else bits[j]
  {
    bits[..start] + field + bits[start + |field|..]
  }

  /** The bytes of a big-endian bitarray: bit 8k is the most significant
      bit of byte k. */
  function PackBits(bits: seq<bool>): (bytes: seq<Byte>)
    requires |bits| % 8 == 0
    ensures |bytes| == |bits| / 8
  {
    if bits == [] then []
    else
      var b := bits[..8];
      var byte := (if b[0] then 128 else 0) + (if b[1] then 64 else 0) + (if b[2] then 32 else 0)
        + (if b[3] then 16 else 0) + (if b[4] then 8 else 0) + (if b[5] then 4 else 0)
        + (if b[6] then 2 else 0) + (if b[7] then 1 else 0);
      [byte] + PackBits(bits[8..])
  }

  /** `memory_read` as written: the tag is placed by `int2ba(7, length=40)`
      and the fields by big-endian `int2ba`, so slice index 0 is the most
      significant bit of the first byte. */
  function AsWrittenMemoryRead(reg: nat, address: nat): seq<Byte>
    requires reg < 0x80 && address < 0x200_0000
  {
    PackBits(Overwrite(Overwrite(BigEndianBits(7, 40), 3, BigEndianBits(reg, 7)), 10, BigEndianBits(address, 25)))
  }

  /** `memory_write` as written, with the same bit order. */
  function AsWrittenMemoryWrite(src: nat, base: nat, offset: nat): seq<Byte>
    requires src < 0x80 && base < 0x80 && offset < 0x4000
  {
    PackBits(Overwrite(Overwrite(Overwrite(BigEndianBits(1, 32), 3, BigEndianBits(src, 7)),
      10, BigEndianBits(base, 7)), 17, BigEndianBits(offset, 14)))
  }

  /** `bitwise_or` as written, with the same bit order. */
  function AsWrittenBitwiseOr(offset: nat, dst: nat, base: nat): seq<Byte>
    requires offset < 0x4000 && dst < 0x80 && base < 0x80
  {
    PackBits(Overwrite(Overwrite(Overwrite(BigEndianBits(3, 32), 3, BigEndianBits(offset, 14)),
      17, BigEndianBits(dst, 7)), 24, BigEndianBits(base, 7)))
  }

  /** `n` is below 2^n. */
  lemma {:induction false} Pow2Above(n: nat)
    ensures n < Pow2(n)
  {
    if n > 0 {
      Pow2Above(n - 1);
    }
  }

  /** A big-endian bitarray of `value` has only zeros before its last
      `n` bits when `value` fits in `n` bits. */
  lemma LeadingZeros(value: nat, width: nat, n: nat)
    requires value < Pow2(n) && n <= width
    ensures forall k :: 0 <= k < width - n ==> !BigEndianBits(value, width)[k]
  {
    var bits := BigEndianBits(value, width);
    forall k | 0 <= k < width - n
      ensures !bits[k]
    {
      var m := width - 1 - k;
      Pow2Add(n, m - n);
      assert Pow2(m) == Pow2(n) * Pow2(m - n);
      MulAtLeast(Pow2(m - n), Pow2(n));
      DivModUnique(value, Pow2(m), 0, value);
    }
  }

  /** A bitarray whose first eight bits are clear packs to a first byte 0. */
  lemma FirstByteClear(bits: seq<bool>)
    requires |bits| % 8 == 0 && |bits| >= 8
    requires forall k :: 0 <= k < 8 ==> !bits[k]
    ensures PackBits(bits)[0] == 0
  {
    var b := bits[..8];
    assert !b[0] && !b[1] && !b[2] && !b[3] && !b[4] && !b[5] && !b[6] && !b[7];
  }

  /** The tag the interpreter reads from a packed bitarray is its bits
      5, 6 and 7: the low three bits of the first byte. */
  lemma PackedTag(bits: seq<bool>)
    requires |bits| % 8 == 0 && |bits| >= 8
    ensures PackBits(bits)[0] % 8
      == (if bits[5] then 4 else 0) + (if bits[6] then 2 else 0) + (if bits[7] then 1 else 0)
  {
    var b := bits[..8];
    var t0, t1, t2 := if b[0] then 128 else 0, if b[1] then 64 else 0, if b[2] then 32 else 0;
    var t3, t4 := if b[3] then 16 else 0, if b[4] then 8 else 0;
    var low := (if b[5] then 4 else 0) + (if b[6] then 2 else 0) + (if b[7] then 1 else 0);
    assert PackBits(bits)[0] == t0 + t1 + t2 + t3 + t4 + low;
    var high := t0 / 8 + t1 / 8 + t2 / 8 + t3 / 8 + t4 / 8;
    assert t0 == 8 * (t0 / 8) && t1 == 8 * (t1 / 8) && t2 == 8 * (t2 / 8);
    assert t3 == 8 * (t3 / 8) && t4 == 8 * (t4 / 8);
    DivModUnique(PackBits(bits)[0], 8, high, low);
  }

  /** As written, MEMORY_READ's first byte carries bits 2 to 4 of the
      register as its tag, not 7. */
  lemma AsWrittenMemoryReadTag(reg: nat, address: nat)
    requires reg < 0x80 && address < 0x200_0000
    ensures AsWrittenMemoryRead(reg, address)[0] % 8 == (reg / 4) % 8
  {
    var field := BigEndianBits(reg, 7);
    var bits := Overwrite(Overwrite(BigEndianBits(7, 40), 3, field), 10, BigEndianBits(address, 25));
    PackedTag(bits);
    assert bits[5] == field[2] && bits[6] == field[3] && bits[7] == field[4];
    assert Pow2(2) == 4;
    ThreeBits(reg, 2);
  }

  /** As written, MEMORY_WRITE's first byte carries bits 2 to 4 of the
      source register as its tag, not 1. */
  lemma AsWrittenMemoryWriteTag(src: nat, base: nat, offset: nat)
    requires src < 0x80 && base < 0x80 && offset < 0x4000
    ensures AsWrittenMemoryWrite(src, base, offset)[0] % 8 == (src / 4) % 8
  {
    var field := BigEndianBits(src, 7);
    var bits := Overwrite(Overwrite(Overwrite(BigEndianBits(1, 32), 3, field),
      10, BigEndianBits(base, 7)), 17, BigEndianBits(offset, 14));
    PackedTag(bits);
    assert bits[5] == field[2] && bits[6] == field[3] && bits[7] == field[4];
    assert Pow2(2) == 4;
    ThreeBits(src, 2);
  }

  /** As written, OR's first byte carries bits 9 to 11 of the offset as
      its tag, not 3. */
  lemma AsWrittenBitwiseOrTag(offset: nat, dst: nat, base: nat)
    requires offset < 0x4000 && dst < 0x80 && base < 0x80
    ensures AsWrittenBitwiseOr(offset, dst, base)[0] % 8 == (offset / 512) % 8
  {
    var field := BigEndianBits(offset, 14);
    var bits := Overwrite(Overwrite(Overwrite(BigEndianBits(3, 32), 3, field),
      17, BigEndianBits(dst, 7)), 24, BigEndianBits(base, 7));
    PackedTag(bits);
    assert bits[5] == field[2] && bits[6] == field[3] && bits[7] == field[4];
    assert Pow2(9) == 512;
    ThreeBits(offset, 9);
  }

  /** With the big-endian bit order the tag is taken from operand bits, so
      the interpreter reads a MEMORY_READ, MEMORY_WRITE or OR as its tag
      only for some operands: the all-zero words start with a zero byte and
      execute as LOAD_CONSTANT. */
  lemma AsWrittenTagsMisread()
    ensures var bytes := AsWrittenMemoryRead(0, 0);
      bytes[0] == 0 && Decode(bytes[0] % 8, FromLittleEndian(bytes)).LoadConstant?
    ensures var bytes := AsWrittenMemoryWrite(0, 0, 0);
      bytes[0] == 0 && Decode(bytes[0] % 8, FromLittleEndian(bytes)).LoadConstant?
    ensures var bytes := AsWrittenBitwiseOr(0, 0, 0);
      bytes[0] == 0 && Decode(bytes[0] % 8, FromLittleEndian(bytes)).LoadConstant?
  {
    Pow2Table();
    MemoryReadFirstByte();
    MemoryWriteFirstByte();
    BitwiseOrFirstByte();
  }

  /** As written, a MEMORY_READ whose register has bits 2 to 4 equal to
      `001` (R5 of an instruction such as `MEMORY_READ R5, [100]`, for one)
      carries tag 1 and executes as a MEMORY_WRITE. */
  lemma AsWrittenMemoryReadMisread(reg: nat, address: nat)
    requires reg < 0x80 && address < 0x200_0000 && (reg / 4) % 8 == 1
    ensures var bytes := AsWrittenMemoryRead(reg, address);
      bytes[0] % 8 == 1 && Decode(bytes[0] % 8, FromLittleEndian(bytes)).MemoryWrite?
  {
    var bytes := AsWrittenMemoryRead(reg, address);
    AsWrittenMemoryReadTag(reg, address);
    var i := Decode(bytes[0] % 8, FromLittleEndian(bytes));
    assert Tag(i) == 1;
  }

  lemma MemoryReadFirstByte()
    ensures AsWrittenMemoryRead(0, 0)[0] == 0
  {
    Pow2Table();
    Pow2Above(7);
    LeadingZeros(0, 7, 0);
    LeadingZeros(0, 25, 0);
    LeadingZeros(7, 40, 3);
    FirstByteClear(Overwrite(Overwrite(BigEndianBits(7, 40), 3, BigEndianBits(0, 7)), 10, BigEndianBits(0, 25)));
  }

  lemma MemoryWriteFirstByte()
    ensures AsWrittenMemoryWrite(0, 0, 0)[0] == 0
  {
    Pow2Table();
    LeadingZeros(0, 7, 0);
    LeadingZeros(0, 14, 0);
    LeadingZeros(1, 32, 3);
    FirstByteClear(Overwrite(Overwrite(Overwrite(BigEndianBits(1, 32), 3, BigEndianBits(0, 7)),
      10, BigEndianBits(0, 7)), 17, BigEndianBits(0, 14)));
  }

  lemma BitwiseOrFirstByte()
    ensures AsWrittenBitwiseOr(0, 0, 0)[0] == 0
  {
    Pow2Table();
    LeadingZeros(0, 7, 0);
    LeadingZeros(0, 14, 0);
    LeadingZeros(3, 32, 3);
    FirstByteClear(Overwrite(Overwrite(Overwrite(BigEndianBits(3, 32), 3, BigEndianBits(0, 14)),
      17, BigEndianBits(0, 7)), 24, BigEndianBits(0, 7)));
  }

  /** `load_constant` as written: 0xE0, then the low 24 bits of B
      big-endian, then C masked to 7 bits. */
  function AsWrittenLoadConstant(value: int, reg: int): (bytes: seq<Byte>)
    ensures |bytes| == 5 && bytes[0] == 0xE0
    ensures bytes[1] as int * 0x1_0000 + bytes[2] as int * 0x100 + bytes[3] as int == value % 0x100_0000
    ensures bytes[4] == reg % 0x80
  {
    var high, low := value / 0x1_0000, value % 0x1_0000;
    DivModUnique(low, 0x100, low / 0x100, low % 0x100);
    assert value % 0x100 == low % 0x100 by { DivModUnique(value, 0x100, high * 0x100 + low / 0x100, low % 0x100); }
    assert (value / 0x100) % 0x100 == low / 0x100 by { DivModUnique(value / 0x100, 0x100, high, low / 0x100); }
    assert value % 0x100_0000 == (high % 0x100) * 0x1_0000 + low
      by { DivModUnique(value, 0x100_0000, high / 0x100, (high % 0x100) * 0x1_0000 + low); }
    [0xE0, high % 0x100, (value / 0x100) % 0x100, value % 0x100, reg % 0x80]
  }

  /** The decoder reads a word starting with 0xE0 as LOAD_CONSTANT, but the
      low five bits of the value it extracts are always 0xE0 >> 3 = 28, so
      any value whose low five bits differ does not survive the round trip. */
  lemma AsWrittenLoadConstantMisread(value: int, reg: int)
    ensures var w := FromLittleEndian(AsWrittenLoadConstant(value, reg));
      && Field(w, 0, 3) == 0
      && Decode(0, w).value % 32 == 28
  {
    var bytes := AsWrittenLoadConstant(value, reg);
    var w := FromLittleEndian(bytes);
    var rest := FromLittleEndian(bytes[1..]);
    assert w == 0xE0 + 256 * rest;
    Pow2Table();
    var x := 28 + 32 * rest;
    FieldOfLayout(w, 0, 3, 0, 0, x);
    DivModUnique(w, 8, x, 0);
    assert Field(w, 3, 24) == x % 0x100_0000;
    var q, v := x / 0x100_0000, x % 0x100_0000;
    assert v == 28 + 32 * (rest - q * 0x8_0000);
    DivModUnique(v, 32, rest - q * 0x8_0000, 28);
  }

  /** The concrete case of the source's own test input `LOAD_CONSTANT R22, #482`. */
  lemma AsWrittenLoadConstantExample()
    ensures Decode(0, FromLittleEndian(AsWrittenLoadConstant(482, 22))) != LoadConstant(482, 22)
  {
    AsWrittenLoadConstantMisread(482, 22);
    assert 482 % 32 == 2;
  }
}
