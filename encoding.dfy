/**
 * The fixed 32-bit instruction word of the toy VM: opcode in bits 31..24,
 * register in bits 23..16, a 16-bit immediate in bits 15..0.
 *
 * Words are unsigned 32-bit integers. `encode`'s shifts and OR, and
 * `decode`'s shifts and masks, are written as the multiplications,
 * divisions and remainders by powers of two that they compute on unsigned
 * values; ShiftsAreArithmetic and PackIsSum prove that reading on bv32.
 */
module Encoding {
  import opened Wrappers
  import opened Words

  type Word = u32

  /** The nine opcodes, in the order of the source's `enum Code` (so LD = 0, LDI = 1). */
  datatype Op = LD | LDI | ST | ADD | ADDI | SUB | SUBI | PUT | JNZ

  /** The two virtual registers, `enum Reg { A, B }`. */
  datatype Reg = A | B

  function OpCode(op: Op): (c: u8)
    ensures c <= 8
  {
    match op
    case LD => 0
    case LDI => 1
    case ST => 2
    case ADD => 3
    case ADDI => 4
    case SUB => 5
    case SUBI => 6
    case PUT => 7
    case JNZ => 8
  }

  /** The opcode a decoded code field stands for; None for the values `run` would `assert(0)` on. */
  function OpOf(code: int): (op: Option<Op>)
    ensures op.Some? <==> 0 <= code <= 8
    ensures op.Some? ==> OpCode(op.value) == code
  {
    if code == 0 then Some(LD)
    else if code == 1 then Some(LDI)
    else if code == 2 then Some(ST)
    else if code == 3 then Some(ADD)
    else if code == 4 then Some(ADDI)
    else if code == 5 then Some(SUB)
    else if code == 6 then Some(SUBI)
    else if code == 7 then Some(PUT)
    else if code == 8 then Some(JNZ)
    else None
  }

  /** Index of a register in `uint32 reg[2]`, and its register field. */
  function Index(r: Reg): (i: u8)
    ensures i < 2
  {
    if r == A then 0 else 1
  }

  /** The register a decoded register field stands for; None when `reg[r]` would be out of bounds. */
  function RegOf(r: int): (reg: Option<Reg>)
    ensures reg.Some? <==> 0 <= r <= 1
    ensures reg.Some? ==> Index(reg.value) == r
  {
    if r == 0 then Some(A) else if r == 1 then Some(B) else None
  }

  /** The three fields `decode` writes. */
  datatype Fields = Fields(code: u8, r: u8, imm: u16)

  /** `encode`'s bit layout: `(code << 24) | (r << 16) | imm`. */
  function Pack(code: u8, r: u8, imm: u16): Word
  {
    code * 0x100_0000 + r * 0x1_0000 + imm
  }

  /** `decode`: `code = x >> 24`, `r = (x >> 16) & 0xff`, `imm = x & 0xffff`. */
  function Decode(x: Word): Fields
  {
    Fields(x / 0x100_0000, x / 0x1_0000 % 0x100, x % 0x1_0000)
  }

  /** On 32-bit words the source's shifts and masks are these divisions and remainders. */
  lemma ShiftsAreArithmetic(x: bv32)
    ensures x >> 24 == x / 0x100_0000
    ensures (x >> 16) & 0xff == x / 0x1_0000 % 0x100
    ensures x & 0xffff == x % 0x1_0000
  {
  }

  /** On 32-bit words with byte-sized opcode and register and a 16-bit immediate, the source's OR of shifted fields is their sum. */
  lemma PackIsSum(code: bv32, r: bv32, imm: bv32)
    requires code < 0x100 && r < 0x100 && imm < 0x1_0000
    ensures (code << 24) | (r << 16) | imm == code * 0x100_0000 + r * 0x1_0000 + imm
  {
  }

  /** Decoding a packed word gives back exactly the three fields, for any byte-sized opcode and register and any 16-bit immediate. */
  lemma DecodePack(code: u8, r: u8, imm: u16)
    ensures Decode(Pack(code, r, imm)) == Fields(code, r, imm)
  {
    var x := Pack(code, r, imm);
    assert x == code * 0x100_0000 + (r * 0x1_0000 + imm);
    assert x / 0x1_0000 == code * 0x100 + r;
  }

  /** Every word is the packing of its decoded fields: no bit is lost or invented. */
  lemma PackDecode(x: Word)
    ensures Pack(Decode(x).code, Decode(x).r, Decode(x).imm) == x
  {
    var hi := x / 0x1_0000;
    assert x == hi * 0x1_0000 + x % 0x1_0000;
    assert hi == hi / 0x100 * 0x100 + hi % 0x100;
    assert hi / 0x100 == x / 0x100_0000;
  }

  /** A decoded instruction: opcode and register from the defined sets, the immediate as uint16. */
  datatype Instr = Instr(op: Op, r: Reg, imm: u16)

  /** What an emitter pushes: `encode(code, r, imm)` for a defined opcode and register. */
  function Encode(ins: Instr): Word
  {
    Pack(OpCode(ins.op), Index(ins.r), ins.imm)
  }

  /** What the interpreter's `switch` makes of three decoded fields; None for an undefined opcode or register. */
  function Interpret(f: Fields): (d: Option<Instr>)
    ensures d.Some? <==> f.code <= 8 && f.r <= 1
    ensures d.Some? ==> OpCode(d.value.op) == f.code && Index(d.value.r) == f.r && d.value.imm == f.imm
  {
    match (OpOf(f.code), RegOf(f.r))
    case (Some(op), Some(r)) => Some(Instr(op, r, f.imm))
    case _ => None
  }

  /** `decode` followed by the interpretation of the fields. */
  function DecodeInstr(x: Word): Option<Instr>
  {
    Interpret(Decode(x))
  }

  /** Each opcode's code decodes back to that opcode. */
  lemma OpOfCode(op: Op)
    ensures OpOf(OpCode(op)) == Some(op)
  {
    match op
    case LD =>
    case LDI =>
    case ST =>
    case ADD =>
    case ADDI =>
    case SUB =>
    case SUBI =>
    case PUT =>
    case JNZ =>
  }

  /** An instruction emitted by `encode` decodes back to exactly itself. */
  lemma DecodeEncode(ins: Instr)
    ensures DecodeInstr(Encode(ins)) == Some(ins)
  {
    DecodePack(OpCode(ins.op), Index(ins.r), ins.imm);
    OpOfCode(ins.op);
    assert RegOf(Index(ins.r)) == Some(ins.r);
  }

  /** Every word that decodes to an instruction is that instruction's encoding. */
  lemma EncodeDecode(x: Word)
    requires DecodeInstr(x).Some?
    ensures Encode(DecodeInstr(x).value) == x
  {
    PackDecode(x);
  }

  /** Every word of the buffer holds a defined opcode and register (otherwise `run` would `assert(0)` or index `reg` out of bounds). */
  ghost predicate WellFormed(code: seq<Word>)
  {
    forall i :: 0 <= i < |code| ==> DecodeInstr(code[i]).Some?
  }

  /** The decoded instruction at a position of a well-formed buffer. */
  function Decoded(code: seq<Word>, i: nat): Instr
    requires WellFormed(code) && i < |code|
  {
    DecodeInstr(code[i]).value
  }

  /** The words the emitters push for a list of instructions, in order. */
  function Assemble(p: seq<Instr>): seq<Word>
  {
    seq(|p|, i requires 0 <= i < |p| => Encode(p[i]))
  }

  /** An assembled program is well formed and decodes, word by word, back to its instructions. */
  lemma AssembleDecodes(p: seq<Instr>)
    ensures WellFormed(Assemble(p)) && |Assemble(p)| == |p|
    ensures forall i :: 0 <= i < |p| ==> Decoded(Assemble(p), i) == p[i]
  {
    forall i | 0 <= i < |p|
      ensures DecodeInstr(Assemble(p)[i]) == Some(p[i])
    {
      DecodeEncode(p[i]);
    }
  }
}
