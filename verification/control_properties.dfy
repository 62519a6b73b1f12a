/** Properties of the control unit that relate several operations:
    resuming a sequence, the CODABO start-up path, the index-register
    invariant over any run of operations, and the two places where the
    source departs from its evident intent. */
module ControlProperties {
  import opened Outcomes
  import opened Words
  import opened SequenceFlags
  import opened Memory
  import opened Instructions
  import opened ControlRegisters
  import opened Control
  import opened Addressing

  /** A sequence that gives up control to another one and later gets it
      back resumes at the program counter it had: `change_sequence` saves
      P in the outgoing sequence's index register and reloads it from
      there.  (Sequence 0 restarts from SPR instead, hence `a != 0`.) */
  lemma ResumeRestoresProgramCounter(cu: ControlUnit, a: SequenceNumber, b: SequenceNumber)
    requires Valid(cu) && !cu.trapOnChangeSequence
    requires a != 0 && a != b
    ensures var away := ChangeSequence(cu, Some(a), b);
            var back := ChangeSequence(away, Some(b), a);
            back.regs.k == Some(a) && back.regs.p == cu.regs.p
  {
    var away := ChangeSequence(cu, Some(a), b);
    assert away.regs.x[a] == cu.regs.p;
    assert !away.trapOnChangeSequence;
  }

  /** CODABO with the toggle start point followed by a fetch runs
      sequence 0 from the toggle start point. */
  lemma CodaboThenFetchRunsSequenceZero(cu: ControlUnit, mem: MemoryUnit, decode: Decoder)
    requires Valid(cu) && !IsHeld(cu.regs.n) && cu.regs.k != Some(0)
    requires Mapped(mem, Physical(cu.tsp)) && decode(mem.cells[Physical(cu.tsp)].word).Some?
    ensures var f := FetchInstruction(Codabo(cu, ResetTSP), mem, decode);
            && f.result == Ok(true)
            && f.unit.regs.k == Some(0)
            && f.unit.regs.p == Successor(cu.tsp)
  {
    var c := Codabo(cu, ResetTSP);
    assert HighestPriorityRaisedFlag(c.regs.flags) == Some(0);
    assert !Idle(c);
    var s := Schedule(c);
    assert s == ChangeSequence(c, c.regs.k, 0);
    assert s.regs.k == Some(0);
    assert s.regs.p == cu.tsp;
  }

  /** The operations a driver can apply to the control unit. */
  datatype Operation =
    | DoCodabo(mode: ResetMode)
    | DoReset(mode: ResetMode)
    | DoStartover
    | DoFetch
    | DoDismiss
    | DoResolve(indexOverride: Option<SequenceNumber>, fuel: nat)
    | DoJump(target: Addr)

  function Apply(cu: ControlUnit, mem: MemoryUnit, decode: Decoder, op: Operation): (r: (ControlUnit, MemoryUnit))
    requires Valid(cu)
  {
    match op
    case DoCodabo(mode) => (Codabo(cu, mode), mem)
    case DoReset(mode) => (Reset(cu, mode), mem)
    case DoStartover => (Startover(cu), mem)
    case DoFetch => var f := FetchInstruction(cu, mem, decode); (f.unit, f.mem)
    case DoDismiss => (DismissUnlessHeld(cu), mem)
    case DoResolve(o, fuel) => var res := ResolveOperandAddress(cu, mem, o, decode, fuel); (res.unit, res.mem)
    case DoJump(target) => (SetProgramCounter(cu, Jump(target)), mem)
  }

  /** Run a sequence of operations from a valid unit. */
  function Run(cu: ControlUnit, mem: MemoryUnit, decode: Decoder, ops: seq<Operation>): (r: (ControlUnit, MemoryUnit))
    requires Valid(cu)
    decreases |ops|
  {
    if |ops| == 0 then (cu, mem)
    else
      var (cu', mem') := Apply(cu, mem, decode, ops[0]);
      if Valid(cu') then Run(cu', mem', decode, ops[1..]) else (cu', mem')
  }

  lemma ApplyKeepsIndexZero(cu: ControlUnit, mem: MemoryUnit, decode: Decoder, op: Operation)
    requires Valid(cu)
    ensures Valid(Apply(cu, mem, decode, op).0)
  {
  }

  /** Index register 0 holds 0 after any run of operations from a new
      control unit. */
  lemma {:induction false} IndexZeroAfterAnyRun(cu: ControlUnit, mem: MemoryUnit, decode: Decoder, ops: seq<Operation>)
    requires Valid(cu)
    ensures Valid(Run(cu, mem, decode, ops).0)
    ensures Run(cu, mem, decode, ops).0.regs.x[0] == 0
    decreases |ops|
  {
    if |ops| > 0 {
      var (cu', mem') := Apply(cu, mem, decode, ops[0]);
      ApplyKeepsIndexZero(cu, mem, decode, ops[0]);
      IndexZeroAfterAnyRun(cu', mem', decode, ops[1..]);
    }
  }

  /** Finding: sequence 0 hands control to another sequence in the
      ordinary course of events (CODABO leaves only its flag raised; it
      dismisses itself; a device raises flag s).  The scheduler then asks
      for a change from sequence 0, which the source aborts on and the
      model carries out. */
  lemma HandOffFromSequenceZero(cu: ControlUnit, s: SequenceNumber)
    requires Valid(cu) && !IsHeld(cu.regs.n) && cu.regs.k == Some(0)
    requires forall t: SequenceNumber :: Raised(cu.regs.flags, t) <==> t == 0
    requires s != 0
    ensures var d := DismissUnlessHeld(cu);
            var raised := d.(regs := d.regs.(flags := Raise(d.regs.flags, s)));
            && HighestPriorityRaisedFlag(raised.regs.flags) == Some(s)
            && ChangeSequenceAsWritten(raised, raised.regs.k, s) == Err(IndexRegisterZeroWritten)
            && Schedule(raised) == ChangeSequence(raised, Some(0), s)
            && (Schedule(raised).regs.k == Some(s) || Schedule(raised).regs.k == Some(TrapSequence))
  {
    var d := DismissUnlessHeld(cu);
    var raised := d.(regs := d.regs.(flags := Raise(d.regs.flags, s)));
    assert forall t: SequenceNumber :: Raised(raised.regs.flags, t) <==> t == s;
    var h := HighestPriorityRaisedFlag(raised.regs.flags);
    assert Raised(raised.regs.flags, s);
    assert h.Some? && h.value == s;
    assert raised.regs.k == Some(0);
    assert !PreviousInstructionHold(raised.regs);
  }

  /** Finding: the source diverts a marked sequence to decimal 42 (0o52,
      the paper tape reader) and only for sequences above it; sequence
      0o50 is not diverted as written, while with the trap sequence 0o42
      it is. */
  lemma TrapSequenceDiffers(cu: ControlUnit)
    requires Valid(cu) && cu.trapOnChangeSequence && cu.regs.k == Some(1)
    requires IsNegative(cu.regs.x[0x28])     // X50 (octal) is a marked placeholder
    ensures ChangeSequenceAsWritten(cu, Some(1), 0x28).Ok?
    ensures ChangeSequenceAsWritten(cu, Some(1), 0x28).value.regs.k == Some(0x28)
    ensures ChangeSequence(cu, Some(1), 0x28).regs.k == Some(TrapSequence)
  {
  }

  /** Finding: when the source's trap does fire, it hands control to
      sequence 0o52 and raises that sequence's flag. */
  lemma TrapAsWrittenRunsPaperTapeReader(cu: ControlUnit, next: SequenceNumber)
    requires Valid(cu) && cu.trapOnChangeSequence && cu.regs.k == Some(1)
    requires next > 42 && IsNegative(cu.regs.x[next])
    ensures ChangeSequenceAsWritten(cu, Some(1), next).Ok?
    ensures ChangeSequenceAsWritten(cu, Some(1), next).value.regs.k == Some(0x2A)   // 0o52
    ensures ChangeSequence(cu, Some(1), next).regs.k == Some(0x22)                 // 0o42
  {
  }

  /** Away from the two findings (no trap on change sequence, and not
      leaving sequence 0) the change of sequence as written and the
      corrected one are the same. */
  lemma AsWrittenAgreesWithoutTrap(cu: ControlUnit, prev: Option<SequenceNumber>, next: SequenceNumber)
    requires Valid(cu) && !cu.trapOnChangeSequence
    requires prev != Some(0) || next == 0
    ensures ChangeSequenceAsWritten(cu, prev, next) == Ok(ChangeSequence(cu, prev, next))
  {
  }
}
