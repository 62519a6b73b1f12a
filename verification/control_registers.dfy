/** The register file of the control unit (`ControlRegisters` in
    cpu/src/control/mod.rs) and the RESET start points (`ResetMode`). */
module ControlRegisters {
  import opened Outcomes
  import opened Words
  import opened SequenceFlags
  import opened Instructions

  const IndexRegisterCount: int := 64
  const FMemorySize: int := 32

  /** `SystemConfiguration`: a configuration value of the F memory; only
      its zero value matters to the control unit. */
  type SystemConfiguration = nat

  type IndexFile = x: seq<Half> | |x| == IndexRegisterCount
    witness seq(IndexRegisterCount, i => 0)

  type FMemory = f: seq<SystemConfiguration> | |f| == FMemorySize
    witness seq(FMemorySize, i => 0)

  /** `Instruction::invalid()`, the N register's content before any
      fetch.  Its hold bit is clear. */
  const InvalidInstruction: Word36 := 0

  datatype Registers = Registers(
    e: Word36,                 // sequence-change audit word
    n: Word36,                 // current instruction
    nSym: Option<Opcode>,      // its decoded (symbolic) form
    p: Addr,                   // program counter
    q: Addr,                   // most recent memory reference
    k: Option<SequenceNumber>, // current sequence; None before the first change
    spr: Addr,                 // start point register
    x: IndexFile,              // index registers X0..X77
    f: FMemory,                // configuration (F) memory
    flags: Flags,
    runnable: bool             // current_sequence_is_runnable
  )

  /** The invariant the accessors assert: index register 0 holds 0. */
  predicate IndexZeroPinned(r: Registers) {
    r.x[0] == 0
  }

  /** `ControlRegisters::new`: everything zero, Limbo, no sequence. */
  function NewRegisters(): (r: Registers)
    ensures IndexZeroPinned(r)
    ensures forall j: SequenceNumber :: r.x[j] == 0
    ensures HighestPriorityRaisedFlag(r.flags).None?
    ensures r.k.None? && r.nSym.None? && !r.runnable && r.e == 0
    ensures !IsHeld(r.n)
  {
    Registers(0, InvalidInstruction, None, 0, 0, None, 0,
              seq(IndexRegisterCount, i => 0), seq(FMemorySize, i => 0),
              NoFlags(), false)
  }

  /** `previous_instruction_hold`. */
  predicate PreviousInstructionHold(r: Registers) {
    IsHeld(r.n)
  }

  /** `get_index_register`: Xj; X0 always reads as 0. */
  function GetIndexRegister(r: Registers, j: SequenceNumber): (v: Half)
    requires IndexZeroPinned(r)
    ensures j == 0 ==> v == 0
    ensures v == r.x[j]
  {
    r.x[j]
  }

  /** `set_index_register`: write Xj for j != 0, leaving every other
      register as it was.  Writing X0 fails an assertion in the source,
      hence the precondition. */
  function SetIndexRegister(r: Registers, j: SequenceNumber, v: Half): (r': Registers)
    requires IndexZeroPinned(r)
    requires j != 0
    ensures IndexZeroPinned(r')
    ensures r'.x[j] == v
    ensures forall i: SequenceNumber :: i != j ==> r'.x[i] == r.x[i]
    ensures r' == r.(x := r'.x)
  {
    r.(x := r.x[j := v])
  }

  /** `get_f_mem`: configuration register n.  The source asserts
      `n < 0o37` and that register 0 holds the zero configuration. */
  function GetFMem(r: Registers, n: int): (c: SystemConfiguration)
    requires 0 <= n < 0x1F   // n < 0o37
    requires r.f[0] == 0
    ensures n == 0 ==> c == 0
    ensures c == r.f[n]
  {
    r.f[n]
  }

  /** The nine RESET (and CODABO) buttons. */
  datatype ResetMode = ResetTSP | Reset0 | Reset1 | Reset2 | Reset3 | Reset4 | Reset5 | Reset6 | Reset7

  /** The offset 0..7 of a fixed-address mode. */
  function FixedIndex(m: ResetMode): (i: int)
    requires m != ResetTSP
    ensures 0 <= i < 8
  {
    match m
    case Reset0 => 0 case Reset1 => 1 case Reset2 => 2 case Reset3 => 3
    case Reset4 => 4 case Reset5 => 5 case Reset6 => 6 case Reset7 => 7
  }

  /** The discriminant the source gives each mode: 0 for ResetTSP and
      0o3777710 + i for the fixed mode Reset<i>. */
  function Discriminant(m: ResetMode): nat {
    if m == ResetTSP then 0 else 0xF_FFC8 + FixedIndex(m)   // 0o3777710 + i
  }

  datatype Abort = UnwrapOutOfRange(value: nat) | IndexRegisterZeroWritten

  /** `Unsigned18Bit::try_from(..).unwrap()`: the value when it fits in
      18 bits, otherwise an abort. */
  function UnwrapUnsigned18(v: nat): (r: Result<Half, Abort>)
    ensures r.Ok? <==> v < HalfModulus
    ensures r.Ok? ==> r.value == v
  {
    if v < HalfModulus then Ok(v) else Err(UnwrapOutOfRange(v))
  }

  /** `ResetMode::address` as written: the discriminant goes through
      `Unsigned18Bit::try_from(..).unwrap()`. */
  function ResetAddressAsWritten(m: ResetMode): (r: Result<Option<Addr>, Abort>)
    ensures m == ResetTSP ==> r == Ok(None)
    ensures r.Ok? && r.value.Some? ==> r.value.value == Discriminant(m)
  {
    if m == ResetTSP then Ok(None)
    else match UnwrapUnsigned18(Discriminant(m))
      case Ok(a) => Ok(Some(a))
      case Err(e) => Err(e)
  }

  /** Every fixed-address mode aborts in the source: 0o3777710 has 21
      significant bits. */
  lemma FixedResetAddressesAbort(m: ResetMode)
    requires m != ResetTSP
    ensures ResetAddressAsWritten(m) == Err(UnwrapOutOfRange(Discriminant(m)))
  {
  }

  const FirstFixedStartPoint: int := 0x1_FFC8   // 0o377710

  /** `ResetMode::address` with the fixed start points at 0o377710 +
      i: eight distinct unmarked addresses at the top of memory, and
      None (use the toggle start point) for ResetTSP. */
  function ResetAddress(m: ResetMode): (r: Option<Addr>)
    ensures r.None? <==> m == ResetTSP
    ensures r.Some? ==> FirstFixedStartPoint <= r.value < FirstFixedStartPoint + 8
    ensures r.Some? ==> !Mark(r.value) && Physical(r.value) == r.value
  {
    if m == ResetTSP then None else Some(FirstFixedStartPoint + FixedIndex(m))
  }

  /** Different buttons start at different addresses. */
  lemma ResetAddressInjective(m1: ResetMode, m2: ResetMode)
    requires m1 != m2
    ensures ResetAddress(m1) != ResetAddress(m2)
  {
  }
}
