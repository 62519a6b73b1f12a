/** Operand address resolution (`resolve_operand_address` in
    cpu/src/control/mod.rs): follow deferred addresses through memory,
    then index the direct address by Xj and record it in Q.

    The deferred loop has no bound in the source; a cyclic chain loops for
    ever.  Here it takes a `fuel` argument and reports `FuelExhausted`
    when the chain is longer than the fuel. */
module Addressing {
  import opened Outcomes
  import opened Words
  import opened SequenceFlags
  import opened Memory
  import opened Instructions
  import opened ControlRegisters
  import opened Control

  datatype Completion = Completed(addr: Addr) | Alarmed(alarm: Alarm) | FuelExhausted

  datatype Resolution = Resolution(status: Completion, unit: ControlUnit, mem: MemoryUnit)

  /** The word N holds after a deferred address cycle that fetched `w`:
      N's left half, `w`'s right half. */
  function SpliceRightHalf(n: Word36, w: Word36): (r: Word36)
    ensures LeftHalf(r) == LeftHalf(n) && RightHalf(r) == RightHalf(w)
  {
    JoinHalves(LeftHalf(n), RightHalf(w))
  }

  /** The `while let OperandAddress::Deferred(..)` loop.  Each cycle
      fetches the word at the deferred address and replaces only the right
      half of N with that word's right half.  It stops at a direct address,
      at an unmapped deferred address (QSAL) or at a word that does not
      decode (OCSAL). */
  function DeferLoop(cu: ControlUnit, mem: MemoryUnit, decode: Decoder, fuel: nat): (r: Resolution)
    ensures r.unit == cu.(regs := cu.regs.(n := r.unit.regs.n, nSym := r.unit.regs.nSym))
    ensures LeftHalf(r.unit.regs.n) == LeftHalf(cu.regs.n)
    ensures r.status.Completed? ==> OperandAddressOf(r.unit.regs.n) == Direct(r.status.addr)
    ensures OperandAddressOf(cu.regs.n).Direct? ==>
      r == Resolution(Completed(OperandAddressOf(cu.regs.n).addr), cu, mem)
    ensures r.status.Alarmed? ==>
      || (r.status.alarm.QSAL? && !Mapped(mem, r.status.alarm.address))
      || (r.status.alarm == OCSAL(r.unit.regs.n) && decode(r.unit.regs.n).None?)
    ensures r.mem.cells.Keys == mem.cells.Keys
    ensures forall a :: a in mem.cells ==> r.mem.cells[a].word == mem.cells[a].word
    decreases fuel
  {
    match OperandAddressOf(cu.regs.n)
    case Direct(a) => Resolution(Completed(a), cu, mem)
    case Deferred(physical) =>
      if fuel == 0 then Resolution(FuelExhausted, cu, mem)
      else
        var fetched := Fetch(mem, physical, MetaOp(cu, SetOnDeferredAddresses));
        match fetched.result
        case Err(_) => Resolution(Alarmed(QSAL(cu.regs.n, physical)), cu, fetched.mem)
        case Ok(w) =>
          var (updated, unit) := UpdateNRegister(cu, SpliceRightHalf(cu.regs.n, w), decode);
          match updated
          case Err(alarm) => Resolution(Alarmed(alarm), unit, fetched.mem)
          case Ok(_) => DeferLoop(unit, fetched.mem, decode, fuel - 1)
  }

  /** The index register used after the deferred cycles: the override if
      one is given, otherwise N's index field. */
  function IndexRegisterFor(n: Word36, indexOverride: Option<SequenceNumber>): (j: SequenceNumber)
    ensures indexOverride.Some? ==> j == indexOverride.value
    ensures indexOverride.None? ==> j == IndexAddress(n)
  {
    indexOverride.GetOr(IndexAddress(n))
  }

  /** `resolve_operand_address`: the deferred cycles, then the direct
      address indexed by Xj; the result is also left in Q.  N's index field
      cannot change during the deferred cycles, so j is the index field of
      the instruction as fetched. */
  function ResolveOperandAddress(cu: ControlUnit, mem: MemoryUnit, indexOverride: Option<SequenceNumber>,
                                 decode: Decoder, fuel: nat): (r: Resolution)
    requires Valid(cu)
    ensures Valid(r.unit)
    ensures r.status.Completed? ==>
      && OperandAddressOf(r.unit.regs.n).Direct?
      && r.status.addr == IndexBy(OperandAddressOf(r.unit.regs.n).addr,
                                  cu.regs.x[IndexRegisterFor(cu.regs.n, indexOverride)])
      && r.unit.regs.q == r.status.addr
    ensures !r.status.Completed? ==> r.unit.regs.q == cu.regs.q
    ensures r.unit == cu.(regs := cu.regs.(n := r.unit.regs.n, nSym := r.unit.regs.nSym, q := r.unit.regs.q))
    ensures r.status == DeferLoop(cu, mem, decode, fuel).status || DeferLoop(cu, mem, decode, fuel).status.Completed?
  {
    var loop := DeferLoop(cu, mem, decode, fuel);
    match loop.status
    case Completed(a) =>
      var j := IndexRegisterFor(loop.unit.regs.n, indexOverride);
      var q := IndexBy(a, GetIndexRegister(loop.unit.regs, j));
      Resolution(Completed(q), loop.unit.(regs := loop.unit.regs.(q := q)), loop.mem)
    case _ => loop
  }

  /** `operand_address_with_optional_defer_and_index`: resolution with
      no index override. */
  function OperandAddressWithOptionalDeferAndIndex(cu: ControlUnit, mem: MemoryUnit, decode: Decoder, fuel: nat): (r: Resolution)
    requires Valid(cu)
    ensures r.status.Completed? ==>
      && OperandAddressOf(r.unit.regs.n).Direct?
      && r.status.addr == IndexBy(OperandAddressOf(r.unit.regs.n).addr, cu.regs.x[IndexAddress(cu.regs.n)])
  {
    ResolveOperandAddress(cu, mem, None, decode, fuel)
  }

  /** `addrs` is a deferred chain in `mem` ending at direct address `d`:
      the word at each address of the chain defers to the next one, and
      the word at the last holds `d`. */
  predicate DeferredChain(mem: MemoryUnit, addrs: seq<Addr>, d: Addr) {
    && |addrs| > 0
    && (forall i :: 0 <= i < |addrs| ==> Mapped(mem, addrs[i]))
    && (forall i :: 0 <= i < |addrs| - 1 ==>
          OperandAddressOf(mem.cells[addrs[i]].word) == Deferred(addrs[i + 1]))
    && OperandAddressOf(mem.cells[addrs[|addrs| - 1]].word) == Direct(d)
  }

  /** Every right half decodes once put next to N's left half. */
  predicate DecodesWithAnyRightHalf(decode: Decoder, n: Word36) {
    forall h: Half :: decode(JoinHalves(LeftHalf(n), h)).Some?
  }

  lemma SpliceKeepsOperand(n: Word36, w: Word36)
    ensures OperandAddressOf(SpliceRightHalf(n, w)) == OperandAddressOf(w)
  {
  }

  /** The unit after one deferred cycle through mapped address `a`: N
      takes the right half of the word there. */
  function CycleUnit(cu: ControlUnit, mem: MemoryUnit, decode: Decoder, a: Addr): (unit: ControlUnit)
    requires Mapped(mem, a)
  {
    UpdateNRegister(cu, SpliceRightHalf(cu.regs.n, mem.cells[a].word), decode).1
  }

  /** The memory after one deferred cycle through `a` (only metabits can
      change). */
  function CycleMem(cu: ControlUnit, mem: MemoryUnit, a: Addr): (after: MemoryUnit) {
    Fetch(mem, a, MetaOp(cu, SetOnDeferredAddresses)).mem
  }

  /** One deferred cycle on a mapped address whose word decodes once
      spliced: the loop carries on from `CycleUnit` and `CycleMem` with
      one less fuel. */
  lemma DeferCycle(cu: ControlUnit, mem: MemoryUnit, decode: Decoder, fuel: nat, a: Addr)
    requires OperandAddressOf(cu.regs.n) == Deferred(a) && Mapped(mem, a) && fuel > 0
    requires DecodesWithAnyRightHalf(decode, cu.regs.n)
    ensures DeferLoop(cu, mem, decode, fuel)
         == DeferLoop(CycleUnit(cu, mem, decode, a), CycleMem(cu, mem, a), decode, fuel - 1)
  {
    var fetched := Fetch(mem, a, MetaOp(cu, SetOnDeferredAddresses));
    var w := mem.cells[a].word;
    assert fetched.result == Ok(w);
    assert decode(JoinHalves(LeftHalf(cu.regs.n), RightHalf(w))).Some?;
    assert UpdateNRegister(cu, SpliceRightHalf(cu.regs.n, w), decode).0.Ok?;
  }

  /** A deferred cycle keeps N's left half, so the word still decodes
      with any right half. */
  lemma SpliceKeepsDecoding(decode: Decoder, n: Word36, w: Word36)
    requires DecodesWithAnyRightHalf(decode, n)
    ensures DecodesWithAnyRightHalf(decode, SpliceRightHalf(n, w))
  {
    assert LeftHalf(SpliceRightHalf(n, w)) == LeftHalf(n);
  }

  /** A deferred chain after its first cycle: the rest of the chain, in
      memory whose words are unchanged. */
  lemma ChainTail(mem: MemoryUnit, after: MemoryUnit, addrs: seq<Addr>, d: Addr)
    requires DeferredChain(mem, addrs, d) && |addrs| > 1
    requires after.cells.Keys == mem.cells.Keys
    requires forall b :: b in mem.cells ==> after.cells[b].word == mem.cells[b].word
    ensures DeferredChain(after, addrs[1..], d)
  {
    var rest := addrs[1..];
    forall i | 0 <= i < |rest| ensures Mapped(after, rest[i]) && after.cells[rest[i]].word == mem.cells[addrs[i + 1]].word {
      assert rest[i] == addrs[i + 1];
    }
    forall i | 0 <= i < |rest| - 1
      ensures OperandAddressOf(after.cells[rest[i]].word) == Deferred(rest[i + 1])
    {
      assert rest[i] == addrs[i + 1];
    }
  }

  /** The first cycle on a chain of more than one address leaves the
      rest of the chain to follow, from a unit that can still follow it. */
  lemma ChainAdvance(cu: ControlUnit, mem: MemoryUnit, decode: Decoder, addrs: seq<Addr>, d: Addr)
    requires DeferredChain(mem, addrs, d) && OperandAddressOf(cu.regs.n) == Deferred(addrs[0])
    requires DecodesWithAnyRightHalf(decode, cu.regs.n)
    requires |addrs| > 1
    ensures DeferredChain(CycleMem(cu, mem, addrs[0]), addrs[1..], d)
    ensures OperandAddressOf(CycleUnit(cu, mem, decode, addrs[0]).regs.n) == Deferred(addrs[1..][0])
    ensures DecodesWithAnyRightHalf(decode, CycleUnit(cu, mem, decode, addrs[0]).regs.n)
  {
    var w := mem.cells[addrs[0]].word;
    SpliceKeepsOperand(cu.regs.n, w);
    ChainTail(mem, CycleMem(cu, mem, addrs[0]), addrs, d);
    SpliceKeepsDecoding(decode, cu.regs.n, w);
    assert addrs[1..][0] == addrs[1];
  }

  /** The only cycle on a chain of one address ends at its direct
      address. */
  lemma ChainLastCycle(cu: ControlUnit, mem: MemoryUnit, decode: Decoder, fuel: nat, addrs: seq<Addr>, d: Addr)
    requires DeferredChain(mem, addrs, d) && OperandAddressOf(cu.regs.n) == Deferred(addrs[0])
    requires DecodesWithAnyRightHalf(decode, cu.regs.n)
    requires fuel > 0 && |addrs| == 1
    ensures DeferLoop(cu, mem, decode, fuel).status == Completed(d)
  {
    DeferCycle(cu, mem, decode, fuel, addrs[0]);
    SpliceKeepsOperand(cu.regs.n, mem.cells[addrs[0]].word);
    assert OperandAddressOf(CycleUnit(cu, mem, decode, addrs[0]).regs.n) == Direct(d);
  }

  /** Without fuel a deferred address is not followed. */
  lemma ChainWithoutFuel(cu: ControlUnit, mem: MemoryUnit, decode: Decoder)
    requires OperandAddressOf(cu.regs.n).Deferred?
    ensures DeferLoop(cu, mem, decode, 0).status == FuelExhausted
  {
  }

  /** A chain of `|addrs|` deferred addresses takes exactly `|addrs|`
      deferred cycles: with at least that much fuel the loop stops at the
      chain's direct address, with less it is still deferring. */
  lemma {:induction false} DeferredChainLength(cu: ControlUnit, mem: MemoryUnit, decode: Decoder, fuel: nat,
                                               addrs: seq<Addr>, d: Addr)
    requires DeferredChain(mem, addrs, d) && OperandAddressOf(cu.regs.n) == Deferred(addrs[0])
    requires DecodesWithAnyRightHalf(decode, cu.regs.n)
    ensures fuel >= |addrs| ==> DeferLoop(cu, mem, decode, fuel).status == Completed(d)
    ensures fuel < |addrs| ==> DeferLoop(cu, mem, decode, fuel).status == FuelExhausted
    decreases |addrs|, 1
  {
    if fuel == 0 {
      ChainWithoutFuel(cu, mem, decode);
    } else if |addrs| == 1 {
      ChainLastCycle(cu, mem, decode, fuel, addrs, d);
    } else {
      LongerChain(cu, mem, decode, fuel, addrs, d);
    }
  }

  /** The inductive step of `DeferredChainLength`: the first cycle leaves
      a chain one shorter with one less fuel, and the same outcome. */
  lemma {:induction false} LongerChain(cu: ControlUnit, mem: MemoryUnit, decode: Decoder, fuel: nat,
                                       addrs: seq<Addr>, d: Addr)
    requires DeferredChain(mem, addrs, d) && OperandAddressOf(cu.regs.n) == Deferred(addrs[0])
    requires DecodesWithAnyRightHalf(decode, cu.regs.n)
    requires fuel > 0 && |addrs| > 1
    ensures fuel >= |addrs| ==> DeferLoop(cu, mem, decode, fuel).status == Completed(d)
    ensures fuel < |addrs| ==> DeferLoop(cu, mem, decode, fuel).status == FuelExhausted
    decreases |addrs|, 0
  {
    ChainAdvance(cu, mem, decode, addrs, d);
    DeferredChainLength(CycleUnit(cu, mem, decode, addrs[0]), CycleMem(cu, mem, addrs[0]), decode,
                        fuel - 1, addrs[1..], d);
    DeferCycle(cu, mem, decode, fuel, addrs[0]);
    StatusFromNext(DeferLoop(cu, mem, decode, fuel).status,
                   DeferLoop(CycleUnit(cu, mem, decode, addrs[0]), CycleMem(cu, mem, addrs[0]), decode, fuel - 1).status,
                   fuel, |addrs|, d);
  }

  /** One cycle shortens both the chain and the fuel by one, so the
      outcome for the rest is the outcome for the whole chain. */
  lemma StatusFromNext(whole: Completion, rest: Completion, fuel: nat, n: nat, d: Addr)
    requires whole == rest && fuel > 0 && n > 1
    requires fuel - 1 >= n - 1 ==> rest == Completed(d)
    requires fuel - 1 < n - 1 ==> rest == FuelExhausted
    ensures fuel >= n ==> whole == Completed(d)
    ensures fuel < n ==> whole == FuelExhausted
  {
  }

  /** Following a chain and then indexing: the result is the chain's
      direct address offset once by Xj. */
  lemma ChainIndexedOnce(cu: ControlUnit, mem: MemoryUnit, decode: Decoder, fuel: nat,
                         addrs: seq<Addr>, d: Addr, indexOverride: Option<SequenceNumber>)
    requires Valid(cu)
    requires DeferredChain(mem, addrs, d) && OperandAddressOf(cu.regs.n) == Deferred(addrs[0])
    requires DecodesWithAnyRightHalf(decode, cu.regs.n)
    requires fuel >= |addrs|
    ensures ResolveOperandAddress(cu, mem, indexOverride, decode, fuel).status
         == Completed(IndexBy(d, cu.regs.x[IndexRegisterFor(cu.regs.n, indexOverride)]))
  {
    DeferredChainLength(cu, mem, decode, fuel, addrs, d);
  }
}
