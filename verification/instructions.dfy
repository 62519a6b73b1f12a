/** The fields of a TX-2 instruction word that the control unit reads,
    and the alarms it raises.

    Bit positions follow the TX-2 instruction format: the hold bit is
    bit 4.9 (bit 35), the configuration field bits 4.8-4.4 (bits 30-34),
    the opcode bits 4.3-3.7 (bits 24-29), the index field bits 3.6-3.1
    (bits 18-23) and the defer bit is bit 2.9 (bit 17); the low 17 bits
    are the operand address.  Turning a word into a symbolic instruction
    (`SymbolicInstruction::try_from`) is a parameter `decode` of the
    operations that need it. */
module Instructions {
  import opened Outcomes
  import opened Words
  import opened SequenceFlags

  datatype Opcode = Skx | Dpx | Jmp | Jpx | Jnx | Skm | Spg | OtherOpcode(number: int)

  /** A decoder from instruction words to the opcode of their symbolic
      form; `None` when the word is not a valid instruction. */
  type Decoder = Word36 -> Option<Opcode>

  datatype OperandAddress = Direct(addr: Addr) | Deferred(physical: Addr)

  const DeferBit: int := PhysicalModulus

  // The hold, opcode and index fields all lie in the
  // left half of the word.

  /** `Instruction::is_held`. */
  predicate IsHeld(w: Word36) {
    LeftHalf(w) >= PhysicalModulus
  }

  /** `Instruction::opcode_number` (6 bits). */
  function OpcodeNumber(w: Word36): (o: int)
    ensures 0 <= o < 64
  {
    (LeftHalf(w) / 64) % 64
  }

  /** `Instruction::index_address`: the index register field j. */
  function IndexAddress(w: Word36): SequenceNumber {
    LeftHalf(w) % 64
  }

  /** `Instruction::operand_address`: the right half of the word with the
      defer bit taken out. */
  function OperandAddressOf(w: Word36): (r: OperandAddress)
    ensures r.Direct? ==> r.addr == RightHalf(w) && r.addr < PhysicalModulus
    ensures r.Deferred? ==> r.physical == RightHalf(w) - DeferBit && r.physical < PhysicalModulus
  {
    var right := RightHalf(w);
    if right >= DeferBit then Deferred(right - DeferBit) else Direct(right)
  }

  /** The alarms of the control unit that this model can raise. */
  datatype Alarm =
    | PSAL(address: int)                        // instruction fetch from an unmapped address
    | OCSAL(instruction: Word36)                // word is not a valid instruction
    | QSAL(instruction: Word36, address: int)   // operand or deferred address not mapped
    | ROUNDTUITAL(opcode: Opcode)               // opcode valid but not implemented
}
