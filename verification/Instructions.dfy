/** Bytecodes of the virtual machine and their decoder. */
module Instructions {
  import opened Arithmetic

  type Byte = b: int | 0 <= b < 256
  type Code = seq<Byte>

  const EXTENDED := 0
  const PUSH_CONSTANT := 5
  const PUSH_BLOCK := 12
  const DO_PRIMITIVE := 13
  const DO_SPECIAL := 15

  const SELF_RETURN := 1
  const STACK_RETURN := 2
  const BLOCK_RETURN := 3
  const BRANCH := 6
  const BRANCH_IF_TRUE := 7
  const BRANCH_IF_FALSE := 8
  const SEND_TO_SUPER := 11

  datatype Instruction = Instruction(opcode: nat, argument: nat, extra: nat) {

    predicate IsBranch() {
      opcode == DO_SPECIAL && (argument == BRANCH || IsConditional())
    }

    predicate IsConditional() {
      opcode == DO_SPECIAL && (argument == BRANCH_IF_TRUE || argument == BRANCH_IF_FALSE)
    }

    predicate IsReturn() {
      opcode == DO_SPECIAL && (argument == STACK_RETURN || argument == SELF_RETURN || argument == BLOCK_RETURN)
    }

    predicate IsTerminator() {
      IsBranch() || IsReturn()
    }

    /** The fields fit their machine types: a nibble, a byte and 16 bits. */
    predicate Fits() {
      opcode < 16 && argument < 256 && extra < 65536
    }

    /** The packed word in which basic blocks keep an instruction. */
    function Serialize(): nat {
      opcode + 256 * argument + 65536 * extra
    }
  }

  /** Which instructions of the group with the opcode 15 return and branch, and which of them end a block. */
  lemma Kinds(i: Instruction)
    ensures i.IsReturn() <==> i.opcode == 15 && 1 <= i.argument <= 3
    ensures i.IsBranch() <==> i.opcode == 15 && 6 <= i.argument <= 8
    ensures i.IsConditional() <==> i.opcode == 15 && 7 <= i.argument <= 8
    ensures i.IsTerminator() <==> i.opcode == 15 && (1 <= i.argument <= 3 || 6 <= i.argument <= 8)
  {
  }

  /** Reading a packed word back. */
  function Deserialize(word: nat): Instruction {
    Instruction(word % 256, word / 256 % 256, word / 65536 % 65536)
  }

  lemma SerializeRoundTrip(i: Instruction)
    requires i.Fits()
    ensures Deserialize(i.Serialize()) == i
    ensures i.Serialize() % 256 == i.opcode && i.Serialize() / 256 % 256 == i.argument
    ensures i.Serialize() / 65536 == i.extra
  {
    var word := i.Serialize();
    Quotient(word, 256, i.argument + 256 * i.extra, i.opcode);
    Quotient(word / 256, 256, i.extra, i.argument);
    Quotient(word, 65536, i.extra, i.opcode + 256 * i.argument);
    Quotient(i.extra, 65536, 0, i.extra);
  }

  /** Two bytes, the low one first. */
  function TwoBytes(low: nat, high: nat): nat {
    low + 256 * high
  }

  /** How many bytes of operands follow the opcode and argument. */
  function Operands(opcode: nat, argument: nat): nat {
    if opcode == PUSH_BLOCK then 2
    else if opcode == DO_PRIMITIVE then 1
    else if opcode == DO_SPECIAL then
      if argument == BRANCH || argument == BRANCH_IF_TRUE || argument == BRANCH_IF_FALSE then 2
      else if argument == SEND_TO_SUPER then 1
      else 0
    else 0
  }

  /** The opcode and argument share a byte, or follow the extended prefix with a byte for the argument. */
  function HeadSize(code: Code, pc: nat): nat
    requires pc < |code|
  {
    if code[pc] / 16 == EXTENDED then 2 else 1
  }

  /** All bytes of the instruction at pc are there. */
  predicate Complete(code: Code, pc: nat) {
    && pc + 1 <= |code| && pc + HeadSize(code, pc) <= |code|
    && NextOf(code, pc) <= |code|
  }

  function OpcodeAt(code: Code, pc: nat): nat
    requires pc < |code|
  {
    if code[pc] / 16 == EXTENDED then code[pc] % 16 else code[pc] / 16
  }

  function ArgumentAt(code: Code, pc: nat): nat
    requires pc < |code| && pc + HeadSize(code, pc) <= |code|
  {
    if code[pc] / 16 == EXTENDED then code[pc + 1] else code[pc] % 16
  }

  /** Where the instruction ends. */
  function NextOf(code: Code, pc: nat): nat
    requires pc < |code| && pc + HeadSize(code, pc) <= |code|
  {
    pc + HeadSize(code, pc) + Operands(OpcodeAt(code, pc), ArgumentAt(code, pc))
  }

  /** The instruction at pc; two operand bytes are little-endian. */
  function InstructionAt(code: Code, pc: nat): Instruction
    requires Complete(code, pc)
  {
    var opcode, argument, at := OpcodeAt(code, pc), ArgumentAt(code, pc), pc + HeadSize(code, pc);
    var size := Operands(opcode, argument);
    var extra: nat := if size == 0 then 0 else if size == 1 then code[at] else TwoBytes(code[at], code[at + 1]);
    Instruction(opcode, argument, extra)
  }

  // ---- The bytes of each instruction ----

  /** An instruction that begins with a byte from 16 on, and the offset behind it, byte by byte. */
  ghost predicate SpelledShort(code: Code, pc: nat, i: Instruction, next: nat) {
    && pc < |code|
    && var c: seq<nat>, b: nat := code, code[pc];
      if 192 <= b <= 207 then
        pc + 2 < |code| && i == Instruction(12, b - 192, c[pc + 1] + 256 * c[pc + 2]) && next == pc + 3
      else if 208 <= b <= 223 then
        pc + 1 < |code| && i == Instruction(13, b - 208, code[pc + 1]) && next == pc + 2
      else if 246 <= b <= 248 then
        pc + 2 < |code| && i == Instruction(15, b - 240, c[pc + 1] + 256 * c[pc + 2]) && next == pc + 3
      else if b == 251 then
        pc + 1 < |code| && i == Instruction(15, 11, code[pc + 1]) && next == pc + 2
      else i.extra == 0 && i.argument < 16 && b == 16 * i.opcode + i.argument && next == pc + 1
  }

  /** The same for an instruction behind the extended prefix: a byte below 16, the opcode, and the argument. */
  ghost predicate SpelledLong(code: Code, pc: nat, i: Instruction, next: nat) {
    && pc + 1 < |code|
    && var c: seq<nat>, b: nat, a: nat := code, code[pc], code[pc + 1];
      if b == 12 || (b == 15 && 6 <= a <= 8) then
        pc + 3 < |code| && i == Instruction(b, a, c[pc + 2] + 256 * c[pc + 3]) && next == pc + 4
      else if b == 13 || (b == 15 && a == 11) then
        pc + 2 < |code| && i == Instruction(b, a, code[pc + 2]) && next == pc + 3
      else i == Instruction(b, a, 0) && next == pc + 2
  }

  ghost predicate Spelled(code: Code, pc: nat, i: Instruction, next: nat) {
    pc < |code| && if code[pc] >= 16 then SpelledShort(code, pc, i, next) else SpelledLong(code, pc, i, next)
  }

  /** At every place of every code the decoder finds the one instruction that is spelled there, if one is. */
  lemma DecodesSpelled(code: Code, pc: nat, i: Instruction, next: nat)
    ensures Spelled(code, pc, i, next) <==>
            Complete(code, pc) && i == InstructionAt(code, pc) && next == NextOf(code, pc)
  {
    if pc < |code| {
      if code[pc] >= 16 { DecodesShort(code, pc, i, next); } else { DecodesLong(code, pc, i, next); }
    }
  }

  lemma DecodesShort(code: Code, pc: nat, i: Instruction, next: nat)
    requires pc < |code| && code[pc] >= 16
    ensures SpelledShort(code, pc, i, next) <==>
            Complete(code, pc) && i == InstructionAt(code, pc) && next == NextOf(code, pc)
  {
    var b: nat := code[pc];
    assert HeadSize(code, pc) == 1 && OpcodeAt(code, pc) == b / 16 && ArgumentAt(code, pc) == b % 16;
    Nibbles(b, i.opcode, i.argument);
  }

  /** The opcode and the argument are the two halves of the byte. */
  lemma Nibbles(b: nat, opcode: nat, argument: nat)
    ensures argument < 16 && b == 16 * opcode + argument <==> opcode == b / 16 && argument == b % 16
    ensures 192 <= b <= 207 <==> b / 16 == 12
    ensures 208 <= b <= 223 <==> b / 16 == 13
    ensures 240 <= b <= 255 <==> b / 16 == 15
    ensures 192 <= b <= 207 ==> b % 16 == b - 192
    ensures 208 <= b <= 223 ==> b % 16 == b - 208
    ensures 240 <= b <= 255 ==> b % 16 == b - 240
  {
  }

  lemma DecodesLong(code: Code, pc: nat, i: Instruction, next: nat)
    requires pc < |code| && code[pc] < 16
    ensures SpelledLong(code, pc, i, next) <==>
            Complete(code, pc) && i == InstructionAt(code, pc) && next == NextOf(code, pc)
  {
    assert HeadSize(code, pc) == 2 && OpcodeAt(code, pc) == code[pc];
  }

  // ---- What an instruction looks like in memory ----

  /** The instruction can be written down: its extra is what its opcode has room for. */
  predicate Encodable(i: Instruction) {
    && i.Fits()
    && match Operands(i.opcode, i.argument)
       case 0 => i.extra == 0
       case 1 => i.extra < 256
       case _ => true
  }

  /** The bytes of an instruction; `long` asks for the extended form, which an argument above 15 needs. */
  function Encode(i: Instruction, long: bool): Code
    requires Encodable(i)
  {
    var extended := long || i.argument >= 16 || i.opcode == EXTENDED;
    var head: Code := if extended then [i.opcode, i.argument] else [16 * i.opcode + i.argument];
    var operands: Code := match Operands(i.opcode, i.argument)
      case 0 => []
      case 1 => [i.extra]
      case _ => [i.extra % 256, i.extra / 256];
    head + operands
  }

  /** Either form of an instruction, wherever it stands, decodes to it and is stepped over exactly. */
  lemma DecodeEncode(before: Code, i: Instruction, long: bool, rest: Code)
    requires Encodable(i)
    ensures var code := before + Encode(i, long) + rest; var pc := |before|;
      Complete(code, pc) && InstructionAt(code, pc) == i && NextOf(code, pc) == pc + |Encode(i, long)|
  {
    var bytes := Encode(i, long);
    var code, pc := before + bytes + rest, |before|;
    assert forall k | 0 <= k < |bytes| :: code[pc + k] == bytes[k];
    assert code[pc] == bytes[0];
    var size := if long || i.argument >= 16 || i.opcode == EXTENDED then 2 else 1;
    if size == 2 {
      assert code[pc + 1] == bytes[1] == i.argument;
      assert i.opcode / 16 == 0 && i.opcode % 16 == i.opcode;
    } else {
      assert (16 * i.opcode + i.argument) / 16 == i.opcode && (16 * i.opcode + i.argument) % 16 == i.argument;
    }
    assert HeadSize(code, pc) == size && OpcodeAt(code, pc) == i.opcode && ArgumentAt(code, pc) == i.argument;
    if Operands(i.opcode, i.argument) >= 1 { assert code[pc + size] == bytes[size]; }
    if Operands(i.opcode, i.argument) == 2 { assert code[pc + size + 1] == bytes[size + 1]; }
  }

  // ---- The decoder ----

  class InstructionDecoder {
    const code: Code
    var bytePointer: nat

    constructor (code: Code, bytePointer: nat)
      ensures this.code == code && this.bytePointer == bytePointer
    {
      this.code, this.bytePointer := code, bytePointer;
    }

    method DecodeAndShiftPointer() returns (i: Instruction)
      requires Complete(code, bytePointer)
      modifies this
      ensures i == InstructionAt(code, old(bytePointer)) && bytePointer == NextOf(code, old(bytePointer))
      ensures Spelled(code, old(bytePointer), i, bytePointer)
    {
      DecodesSpelled(code, bytePointer, InstructionAt(code, bytePointer), NextOf(code, bytePointer));
      hide Spelled;
      var extra: nat := 0;
      var opcode: nat, argument: nat := code[bytePointer] / 16, code[bytePointer] % 16;
      bytePointer := bytePointer + 1;

      if opcode == EXTENDED {
        opcode := argument;
        argument := code[bytePointer];
        bytePointer := bytePointer + 1;
      }

      if opcode == PUSH_BLOCK {
        extra := TwoBytes(code[bytePointer], code[bytePointer + 1]);
        bytePointer := bytePointer + 2;
      } else if opcode == DO_PRIMITIVE {
        extra := code[bytePointer];
        bytePointer := bytePointer + 1;
      } else if opcode == DO_SPECIAL {
        if argument == BRANCH || argument == BRANCH_IF_TRUE || argument == BRANCH_IF_FALSE {
          extra := TwoBytes(code[bytePointer], code[bytePointer + 1]);
          bytePointer := bytePointer + 2;
        } else if argument == SEND_TO_SUPER {
          extra := code[bytePointer];
          bytePointer := bytePointer + 1;
        }
      }
      return Instruction(opcode, argument, extra);
    }
  }
}
