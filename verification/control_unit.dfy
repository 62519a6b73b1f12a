/** The TX-2 control unit (`ControlUnit` in cpu/src/control/mod.rs):
    CODABO/RESET/STARTOVER, change of sequence, program-counter updates,
    instruction fetch, operand address resolution, dispatch and
    dismissal.  Every operation is a function from the unit (and the
    memory) before to the unit (and the memory) after. */
module Control {
  import opened Outcomes
  import opened Words
  import opened SequenceFlags
  import opened Memory
  import opened Instructions
  import opened ControlRegisters

  /** Which memory references set the meta bit (`SetMetabit`). */
  datatype SetMetabit = SetOnNothing | SetOnInstructions | SetOnDeferredAddresses | SetOnOperands

  datatype ControlUnit = ControlUnit(
    regs: Registers,
    running: bool,
    trapOnChangeSequence: bool,
    setMetabitMode: SetMetabit,
    tsp: Addr                   // the Toggle Start Point (STANDARD_PROGRAM_CLEAR_MEMORY)
  )

  predicate Valid(cu: ControlUnit) {
    IndexZeroPinned(cu.regs)
  }

  /** The sequence that handles traps: 0o42 (Users Handbook 4-5 No. 42). */
  const TrapSequence: SequenceNumber := 0x22    // 0o42

  /** The sequence the source actually uses: decimal 42, i.e. 0o52, the
      paper tape reader's sequence. */
  const TrapSequenceAsWritten: SequenceNumber := 42

  /** `ControlUnit::new`: registers zeroed, Limbo, no sequence. */
  function NewControlUnit(tsp: Addr): (cu: ControlUnit)
    ensures Valid(cu)
    ensures HighestPriorityRaisedFlag(cu.regs.flags).None? && cu.regs.k.None?
    ensures !cu.trapOnChangeSequence && cu.setMetabitMode == SetOnNothing && cu.tsp == tsp
  {
    ControlUnit(NewRegisters(), false, false, SetOnNothing, tsp)
  }

  // ---------------------------------------------------------------------
  // RESET, STARTOVER, CODABO

  /** `reset`: load the start point register and nothing else. */
  function Reset(cu: ControlUnit, mode: ResetMode): (r: ControlUnit)
    ensures r == cu.(regs := cu.regs.(spr := r.regs.spr))
    ensures mode == ResetTSP ==> r.regs.spr == cu.tsp
    ensures mode != ResetTSP ==> r.regs.spr == FirstFixedStartPoint + FixedIndex(mode)
  {
    var spr := match ResetAddress(mode)
      case Some(a) => a
      case None => cu.tsp;
    cu.(regs := cu.regs.(spr := spr))
  }

  /** `startover`: raise the flag of sequence 0. */
  function Startover(cu: ControlUnit): (r: ControlUnit)
    ensures forall s: SequenceNumber :: Raised(r.regs.flags, s) <==> (s == 0 || Raised(cu.regs.flags, s))
    ensures r == cu.(regs := cu.regs.(flags := r.regs.flags))
  {
    cu.(regs := cu.regs.(flags := Raise(cu.regs.flags, 0)))
  }

  /** `codabo`: reset, lower every flag, mark the current sequence not
      runnable, then STARTOVER.  K, P and the index registers are left
      alone. */
  function Codabo(cu: ControlUnit, mode: ResetMode): (r: ControlUnit)
    ensures forall s: SequenceNumber :: Raised(r.regs.flags, s) <==> s == 0
    ensures HighestPriorityRaisedFlag(r.regs.flags) == Some(0)
    ensures !r.regs.runnable
    ensures r.regs.spr == Reset(cu, mode).regs.spr
    ensures r == cu.(regs := cu.regs.(spr := r.regs.spr, flags := r.regs.flags, runnable := false))
  {
    var reset := Reset(cu, mode);
    var lowered := reset.(regs := reset.regs.(flags := NoFlags(), runnable := false));
    Startover(lowered)
  }

  // ---------------------------------------------------------------------
  // Program counter

  datatype ProgramCounterChange = SequenceChange(next: SequenceNumber) | CounterUpdate | Jump(target: Addr)

  /** `set_program_counter`.  A change of sequence loads P from the new
      sequence's index register (from SPR for sequence 0); a counter
      update advances the physical part, wrapping, with the mark bit
      kept; a jump replaces the physical part and keeps the mark bit.
      Nothing but P changes. */
  function SetProgramCounter(cu: ControlUnit, change: ProgramCounterChange): (r: ControlUnit)
    requires Valid(cu)
    ensures r == cu.(regs := cu.regs.(p := r.regs.p))
    ensures change.SequenceChange? && change.next == 0 ==> r.regs.p == cu.regs.spr
    ensures change.SequenceChange? && change.next != 0 ==> r.regs.p == cu.regs.x[change.next]
    ensures change.CounterUpdate? ==> Mark(r.regs.p) == Mark(cu.regs.p)
    ensures change.CounterUpdate? ==> Physical(r.regs.p) == (Physical(cu.regs.p) + 1) % PhysicalModulus
    ensures change.Jump? ==> Mark(r.regs.p) == Mark(cu.regs.p)
    ensures change.Jump? ==> Physical(r.regs.p) == Physical(change.target)
  {
    match change
    case SequenceChange(next) =>
      var p := if next != 0 then GetIndexRegister(cu.regs, next) else cu.regs.spr;
      cu.(regs := cu.regs.(p := p))
    case CounterUpdate =>
      cu.(regs := cu.regs.(p := Successor(cu.regs.p)))
    case Jump(target) =>
      cu.(regs := cu.regs.(p := Join(Physical(target), Mark(cu.regs.p))))
  }

  // ---------------------------------------------------------------------
  // Change of sequence

  /** The audit word E: previous sequence, next sequence, old P. */
  function AuditWord(previous: SequenceNumber, next: SequenceNumber, p: Addr): (e: Word36)
    ensures e / 0x800_0000 == previous
    ensures (e / HalfModulus) % 512 == next
    ensures e % HalfModulus == p
  {
    JoinHalves(previous * 512 + next, p)
  }

  /** Whether trap-on-change-sequence diverts a change to `next` into
      sequence `trapSeq`: the trap is enabled, Xnext is a marked
      (negative) placeholder, the current sequence is not the trap
      sequence and `next` is numerically above it. */
  predicate TrapFires(cu: ControlUnit, next: SequenceNumber, trapSeq: SequenceNumber) {
    && cu.trapOnChangeSequence
    && IsNegative(cu.regs.x[next])
    && cu.regs.k != Some(trapSeq)
    && next > trapSeq
  }

  /** The part of `change_sequence` after the "same sequence" test, with
      the trap sequence as a parameter.  P is saved into the previous
      sequence's index register unless that sequence is 0. */
  function SwitchSequence(cu: ControlUnit, prev: Option<SequenceNumber>, next: SequenceNumber,
                          trapSeq: SequenceNumber): (r: ControlUnit)
    requires Valid(cu)
    ensures Valid(r)
    ensures r.regs.e == AuditWord(prev.GetOr(0), next, cu.regs.p)
    ensures r.regs.k == Some(if TrapFires(cu, next, trapSeq) then trapSeq else next)
    ensures forall s: SequenceNumber ::
      Raised(r.regs.flags, s) <==> (Raised(cu.regs.flags, s) || (s == trapSeq && TrapFires(cu, next, trapSeq)))
    ensures prev.Some? && prev.value != 0 ==> r.regs.x[prev.value] == cu.regs.p
    ensures forall j: SequenceNumber :: (prev.None? || j != prev.value) ==> r.regs.x[j] == cu.regs.x[j]
    ensures r.regs.k == Some(0) ==> r.regs.p == cu.regs.spr
    ensures r.regs.k.value != 0 ==> r.regs.p == r.regs.x[r.regs.k.value]
    ensures r.regs == cu.regs.(e := r.regs.e, flags := r.regs.flags, k := r.regs.k, x := r.regs.x, p := r.regs.p)
    ensures r == cu.(regs := r.regs)
  {
    var trap := TrapFires(cu, next, trapSeq);
    var e := AuditWord(prev.GetOr(0), next, cu.regs.p);
    var flags := if trap then Raise(cu.regs.flags, trapSeq) else cu.regs.flags;
    var newK := if trap then trapSeq else next;
    var regs := cu.regs.(e := e, flags := flags, k := Some(newK));
    var saved := if prev.Some? && prev.value != 0 then SetIndexRegister(regs, prev.value, regs.p) else regs;
    SetProgramCounter(cu.(regs := saved), SequenceChange(newK))
  }

  /** `change_sequence`, with the trap handled by sequence 0o42 and no
      attempt to save P into X0 when sequence 0 gives up control. */
  function ChangeSequence(cu: ControlUnit, prev: Option<SequenceNumber>, next: SequenceNumber): (r: ControlUnit)
    requires Valid(cu)
    ensures Valid(r)
    ensures prev == Some(next) ==> r == cu
    ensures prev != Some(next) ==> r.regs.e == AuditWord(prev.GetOr(0), next, cu.regs.p)
    ensures prev != Some(next) ==>
      r.regs.k == Some(if TrapFires(cu, next, TrapSequence) then TrapSequence else next)
    ensures prev != Some(next) ==> forall s: SequenceNumber ::
      Raised(r.regs.flags, s) <==> (Raised(cu.regs.flags, s) || (s == TrapSequence && TrapFires(cu, next, TrapSequence)))
    ensures prev != Some(next) && prev.Some? && prev.value != 0 ==> r.regs.x[prev.value] == cu.regs.p
    ensures forall j: SequenceNumber :: (prev.None? || j != prev.value) ==> r.regs.x[j] == cu.regs.x[j]
    ensures r.regs.k == Some(0) && prev != Some(next) ==> r.regs.p == cu.regs.spr
    ensures r.regs.k.Some? && r.regs.k.value != 0 && prev != Some(next) ==> r.regs.p == r.regs.x[r.regs.k.value]
    ensures r.regs == cu.regs.(e := r.regs.e, flags := r.regs.flags, k := r.regs.k, x := r.regs.x, p := r.regs.p)
    ensures r == cu.(regs := r.regs)
  {
    if prev == Some(next) then cu else SwitchSequence(cu, prev, next, TrapSequence)
  }

  /** `change_sequence` as written: the trap sequence is decimal 42, and
      leaving sequence 0 fails the `n != 0` assertion of
      `set_index_register`. */
  function ChangeSequenceAsWritten(cu: ControlUnit, prev: Option<SequenceNumber>, next: SequenceNumber): (r: Result<ControlUnit, Abort>)
    requires Valid(cu)
    ensures r.Err? <==> prev == Some(0) && next != 0
    ensures prev == Some(next) ==> r == Ok(cu)
    ensures r.Ok? && prev != Some(next) ==>
      r.value.regs.k == Some(if TrapFires(cu, next, TrapSequenceAsWritten) then TrapSequenceAsWritten else next)
    ensures r.Ok? && prev != Some(next) ==> r.value.regs.e == AuditWord(prev.GetOr(0), next, cu.regs.p)
    ensures r.Ok? && prev != Some(next) ==> forall s: SequenceNumber ::
      Raised(r.value.regs.flags, s) <==>
        (Raised(cu.regs.flags, s) || (s == TrapSequenceAsWritten && TrapFires(cu, next, TrapSequenceAsWritten)))
    ensures r.Ok? && prev != Some(next) && prev.Some? ==> r.value.regs.x[prev.value] == cu.regs.p
    ensures r.Ok? ==> forall j: SequenceNumber :: (prev.None? || j != prev.value) ==> r.value.regs.x[j] == cu.regs.x[j]
    ensures r.Ok? && r.value.regs.k == Some(0) && prev != Some(next) ==> r.value.regs.p == cu.regs.spr
    ensures r.Ok? && r.value.regs.k.Some? && r.value.regs.k.value != 0 && prev != Some(next) ==>
      r.value.regs.p == r.value.regs.x[r.value.regs.k.value]
    ensures r.Ok? ==> r.value == cu.(regs := cu.regs.(e := r.value.regs.e, flags := r.value.regs.flags,
                                                      k := r.value.regs.k, x := r.value.regs.x, p := r.value.regs.p))
  {
    if prev == Some(next) then Ok(cu)
    else if prev == Some(0) then Err(IndexRegisterZeroWritten)
    else Ok(SwitchSequence(cu, prev, next, TrapSequenceAsWritten))
  }

  // ---------------------------------------------------------------------
  // Instruction fetch

  /** The scheduling step at the start of `fetch_instruction`: unless the
      previous instruction held, change to the highest-priority raised
      sequence if it is not the current one. */
  function Schedule(cu: ControlUnit): (r: ControlUnit)
    requires Valid(cu)
    ensures Valid(r)
    ensures PreviousInstructionHold(cu.regs) ==> r == cu
    ensures HighestPriorityRaisedFlag(cu.regs.flags).None? ==> r == cu
    ensures !PreviousInstructionHold(cu.regs) && HighestPriorityRaisedFlag(cu.regs.flags).Some? ==>
      var s := HighestPriorityRaisedFlag(cu.regs.flags).value;
      r.regs.k == Some(s) || (r.regs.k == Some(TrapSequence) && TrapFires(cu, s, TrapSequence))
    ensures !PreviousInstructionHold(cu.regs) && HighestPriorityRaisedFlag(cu.regs.flags).Some? ==>
      var s := HighestPriorityRaisedFlag(cu.regs.flags).value;
      && (Some(s) == cu.regs.k ==> r == cu)
      && (Some(s) != cu.regs.k ==> r.regs.k == Some(if TrapFires(cu, s, TrapSequence) then TrapSequence else s))
    ensures r.regs.n == cu.regs.n && r.regs.nSym == cu.regs.nSym && r.regs.runnable == cu.regs.runnable
  {
    if PreviousInstructionHold(cu.regs) then cu
    else match HighestPriorityRaisedFlag(cu.regs.flags)
      case None => cu
      case Some(s) => if Some(s) == cu.regs.k then cu else ChangeSequence(cu, cu.regs.k, s)
  }

  /** The idle case of `fetch_instruction`: no hold, no flag raised and
      the current sequence not runnable. */
  predicate Idle(cu: ControlUnit) {
    && !PreviousInstructionHold(cu.regs)
    && HighestPriorityRaisedFlag(cu.regs.flags).None?
    && !cu.regs.runnable
  }

  datatype Step<T> = Step(result: Result<T, Alarm>, unit: ControlUnit, mem: MemoryUnit)

  /** `update_n_register`: load N; record the decoded form, or raise
      OCSAL leaving the previous decoded form in place. */
  function UpdateNRegister(cu: ControlUnit, w: Word36, decode: Decoder): (r: (Result<(), Alarm>, ControlUnit))
    ensures r.1.regs.n == w
    ensures r.0.Ok? <==> decode(w).Some?
    ensures r.0.Ok? ==> r.1.regs.nSym == decode(w)
    ensures r.0.Err? ==> r.0.error == OCSAL(w) && r.1.regs.nSym == cu.regs.nSym
    ensures r.1 == cu.(regs := cu.regs.(n := w, nSym := r.1.regs.nSym))
  {
    var loaded := cu.(regs := cu.regs.(n := w));
    match decode(w)
    case Some(op) => (Ok(()), loaded.(regs := loaded.regs.(nSym := Some(op))))
    case None => (Err(OCSAL(w)), loaded)
  }

  /** The meta bit change of a memory access: set the meta bit exactly
      when the unit's mode asks for it on this kind of access. */
  function MetaOp(cu: ControlUnit, wanted: SetMetabit): (change: MetaBitChange)
    ensures change == SetMetaBit <==> cu.setMetabitMode == wanted
    ensures change == NoMetaChange <==> cu.setMetabitMode != wanted
  {
    if cu.setMetabitMode == wanted then SetMetaBit else NoMetaChange
  }

  /** `fetch_instruction`.  Idle: `Ok(false)` with nothing changed.
      Otherwise P is advanced before the word at its old physical address
      is read, so an unmapped address (PSAL) and an invalid instruction
      (OCSAL) both leave P advanced. */
  function FetchInstruction(cu: ControlUnit, mem: MemoryUnit, decode: Decoder): (r: Step<bool>)
    requires Valid(cu)
    ensures Valid(r.unit)
    ensures r.result == Ok(false) <==> Idle(cu)
    ensures Idle(cu) ==> r.unit == cu && r.mem == mem
    ensures !Idle(cu) ==>
      var s := Schedule(cu);
      && r.unit.regs.p == Successor(s.regs.p)
      && r.unit.regs.k == s.regs.k
      && r.unit.regs.flags == s.regs.flags
      && (r.result.Err? && r.result.error.PSAL? <==> !Mapped(mem, Physical(s.regs.p)))
      && (r.result.Err? && r.result.error.PSAL? ==> r.result.error.address == Physical(s.regs.p))
      && (Mapped(mem, Physical(s.regs.p)) ==>
            var w := mem.cells[Physical(s.regs.p)].word;
            && r.unit.regs.n == w
            && (r.result == Ok(true) <==> decode(w).Some?)
            && (r.result.Ok? ==> r.unit.regs.nSym == decode(w))
            && (r.result.Err? ==> r.result.error == OCSAL(w)))
    ensures !Idle(cu) ==>
      var s := Schedule(cu);
      r.unit == s.(regs := s.regs.(p := r.unit.regs.p, n := r.unit.regs.n, nSym := r.unit.regs.nSym))
    ensures r.result.Err? && r.result.error.PSAL? ==>
      r.unit.regs.n == cu.regs.n && r.unit.regs.nSym == cu.regs.nSym && r.mem == mem
    ensures PreviousInstructionHold(cu.regs) ==> r.unit.regs.k == cu.regs.k && r.unit.regs.flags == cu.regs.flags
  {
    if Idle(cu) then Step(Ok(false), cu, mem)
    else
      var s := Schedule(cu);
      var address := Physical(s.regs.p);
      var advanced := SetProgramCounter(s, CounterUpdate);
      var fetched := Fetch(mem, address, MetaOp(cu, SetOnInstructions));
      match fetched.result
      case Err(_) => Step(Err(PSAL(address)), advanced, fetched.mem)
      case Ok(w) =>
        var (updated, unit) := UpdateNRegister(advanced, w, decode);
        match updated
        case Ok(_) => Step(Ok(true), unit, fetched.mem)
        case Err(alarm) => Step(Err(alarm), unit, fetched.mem)
  }

  // ---------------------------------------------------------------------
  // Execution

  predicate Implemented(op: Opcode) {
    op in {Skx, Dpx, Jmp, Jpx, Jnx, Skm, Spg}
  }

  /** The dispatch of `execute_instruction`: the opcode whose handler
      runs, OCSAL when nothing was decoded, ROUNDTUITAL for a decoded
      opcode without a handler. */
  function ExecuteDispatch(cu: ControlUnit): (r: Result<Opcode, Alarm>)
    ensures r.Ok? <==> cu.regs.nSym.Some? && Implemented(cu.regs.nSym.value)
    ensures r.Ok? ==> Some(r.value) == cu.regs.nSym
    ensures r.Err? && r.error.OCSAL? <==> cu.regs.nSym.None?
    ensures r.Err? && r.error.OCSAL? ==> r.error.instruction == cu.regs.n
    ensures r.Err? && r.error.ROUNDTUITAL? <==> cu.regs.nSym.Some? && !Implemented(cu.regs.nSym.value)
    ensures r.Err? && r.error.ROUNDTUITAL? ==> Some(r.error.opcode) == cu.regs.nSym
  {
    match cu.regs.nSym
    case None => Err(OCSAL(cu.regs.n))
    case Some(op) =>
      match op
      case Skx => Ok(op)
      case Dpx => Ok(op)
      case Jmp => Ok(op)
      case Jpx => Ok(op)
      case Jnx => Ok(op)
      case Skm => Ok(op)
      case Spg => Ok(op)
      case _ => Err(ROUNDTUITAL(op))
  }

  /** `dismiss_unless_held`: unless N holds, lower the current sequence's
      flag (and only that one) and mark it not runnable. */
  function DismissUnlessHeld(cu: ControlUnit): (r: ControlUnit)
    ensures IsHeld(cu.regs.n) || cu.regs.k.None? ==> r == cu
    ensures !IsHeld(cu.regs.n) && cu.regs.k.Some? ==>
      && !r.regs.runnable
      && (forall s: SequenceNumber :: Raised(r.regs.flags, s) <==> (s != cu.regs.k.value && Raised(cu.regs.flags, s)))
    ensures r == cu.(regs := cu.regs.(flags := r.regs.flags, runnable := r.regs.runnable))
  {
    if !IsHeld(cu.regs.n) && cu.regs.k.Some? then
      cu.(regs := cu.regs.(flags := Lower(cu.regs.flags, cu.regs.k.value), runnable := false))
    else cu
  }

  /** `fetch_operand_from_address`: the word at `addr`, QSAL if unmapped. */
  function FetchOperandFromAddress(cu: ControlUnit, mem: MemoryUnit, addr: Addr): (r: Step<Word36>)
    ensures r.unit == cu
    ensures r.result.Ok? <==> Mapped(mem, addr)
    ensures r.result.Ok? ==> r.result.value == mem.cells[addr].word
    ensures r.result.Err? ==> r.result.error == QSAL(cu.regs.n, addr) && r.mem == mem
  {
    var fetched := Fetch(mem, addr, MetaOp(cu, SetOnOperands));
    match fetched.result
    case Ok(w) => Step(Ok(w), cu, fetched.mem)
    case Err(_) => Step(Err(QSAL(cu.regs.n, addr)), cu, fetched.mem)
  }
}
