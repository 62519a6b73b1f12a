/** The 64 sequence flags of the TX-2 control unit (`SequenceFlags` in
    cpu/src/control/mod.rs).

    The source keeps the flags in one `u64`, bit `i` standing for a run
    request from sequence `i`.  Here the word is modelled as its 64 bits,
    bit `i` at index `i`; `Value` gives back the integer the `u64` holds. */
module SequenceFlags {
  import opened Outcomes

  const SequenceCount: int := 64

  /** `SequenceNumber` (an `Unsigned6Bit`): the type itself rules out the
      `seq < 0o100` assertion failures of `raise` and `lower`. */
  type SequenceNumber = s: int | 0 <= s < SequenceCount

  type FlagWord = b: seq<bool> | |b| == SequenceCount
    witness seq(SequenceCount, i => false)

  datatype Flags = Flags(bits: FlagWord)

  predicate Raised(f: Flags, s: SequenceNumber) {
    f.bits[s]
  }

  /** `SequenceFlags::new` and `lower_all`: no flag raised (Limbo). */
  function NoFlags(): (r: Flags)
    ensures forall s: SequenceNumber :: !Raised(r, s)
  {
    Flags(seq(SequenceCount, i => false))
  }

  /** `raise`: set the flag of `s` and no other. */
  function Raise(f: Flags, s: SequenceNumber): (r: Flags)
    ensures forall t: SequenceNumber :: Raised(r, t) <==> (t == s || Raised(f, t))
  {
    Flags(f.bits[s := true])
  }

  /** `lower`: clear the flag of `s` and no other. */
  function Lower(f: Flags, s: SequenceNumber): (r: Flags)
    ensures forall t: SequenceNumber :: Raised(r, t) <==> (t != s && Raised(f, t))
  {
    Flags(f.bits[s := false])
  }

  /** The integer held by the flag word when bits `from..63` are read
      as a binary number (bit `from` least significant). */
  function ValueFrom(bits: FlagWord, from: nat): nat
    requires from <= SequenceCount
    decreases SequenceCount - from
  {
    if from == SequenceCount then 0
    else (if bits[from] then 1 else 0) + 2 * ValueFrom(bits, from + 1)
  }

  /** The `u64` value of the flag word. */
  function Value(f: Flags): nat {
    ValueFrom(f.bits, 0)
  }

  /** Scan for the lowest raised flag at or after `from`; 64 when none is
      raised there (the `trailing_zeros` of the shifted word). */
  function ScanFrom(f: Flags, from: nat): (n: nat)
    requires from <= SequenceCount
    ensures from <= n <= SequenceCount
    ensures n < SequenceCount ==> Raised(f, n)
    ensures forall t: SequenceNumber :: from <= t < n ==> !Raised(f, t)
    decreases SequenceCount - from
  {
    if from == SequenceCount then SequenceCount
    else if f.bits[from] then from
    else ScanFrom(f, from + 1)
  }

  /** `trailing_zeros` of the flag word. */
  function TrailingZeros(f: Flags): (n: nat)
    ensures n <= SequenceCount
  {
    ScanFrom(f, 0)
  }

  /** `highest_priority_raised_flag`: the lowest-numbered raised flag, or
      `None` (Limbo) when none is raised. */
  function HighestPriorityRaisedFlag(f: Flags): (r: Option<SequenceNumber>)
    ensures r.None? <==> forall t: SequenceNumber :: !Raised(f, t)
    ensures r.Some? ==> Raised(f, r.value)
    ensures r.Some? ==> forall t: SequenceNumber :: t < r.value ==> !Raised(f, t)
  {
    var n := TrailingZeros(f);
    if n == SequenceCount then None else Some(n)
  }

  lemma {:induction false} ValueFromZero(bits: FlagWord, from: nat)
    requires from <= SequenceCount
    ensures ValueFrom(bits, from) == 0 <==> forall t :: from <= t < SequenceCount ==> !bits[t]
    decreases SequenceCount - from
  {
    if from < SequenceCount {
      ValueFromZero(bits, from + 1);
    }
  }

  /** `trailing_zeros` is 64, so the scan reports Limbo, exactly when the
      flag word is 0. */
  lemma LimboIffZeroWord(f: Flags)
    ensures HighestPriorityRaisedFlag(f).None? <==> Value(f) == 0
  {
    ValueFromZero(f.bits, 0);
    if Value(f) != 0 {
      var t :| 0 <= t < SequenceCount && f.bits[t];
      assert Raised(f, t);
    }
  }

  lemma {:induction false} ValueFromBound(bits: FlagWord, from: nat)
    requires from <= SequenceCount
    ensures ValueFrom(bits, from) < Pow2(SequenceCount - from)
    decreases SequenceCount - from
  {
    if from < SequenceCount {
      ValueFromBound(bits, from + 1);
    }
  }

  function Pow2(n: nat): (r: nat)
    ensures r >= 1
  {
    if n == 0 then 1 else 2 * Pow2(n - 1)
  }

  /** The flag word fits in a `u64`. */
  lemma ValueFitsInU64(f: Flags)
    ensures Value(f) < Pow2(64)
  {
    ValueFromBound(f.bits, 0);
  }

  /** Raise every sequence in `ss`, in order. */
  function RaiseAll(f: Flags, ss: seq<SequenceNumber>): Flags
    decreases |ss|
  {
    if |ss| == 0 then f else RaiseAll(Raise(f, ss[0]), ss[1..])
  }

  function MinOf(ss: seq<SequenceNumber>): (m: SequenceNumber)
    requires |ss| > 0
    ensures m in ss
    ensures forall i :: 0 <= i < |ss| ==> m <= ss[i]
  {
    if |ss| == 1 then ss[0]
    else var rest := MinOf(ss[1..]);
      if ss[0] <= rest then ss[0] else rest
  }

  lemma {:induction false} RaiseAllRaised(f: Flags, ss: seq<SequenceNumber>, t: SequenceNumber)
    ensures Raised(RaiseAll(f, ss), t) <==> (Raised(f, t) || t in ss)
    decreases |ss|
  {
    if |ss| > 0 {
      RaiseAllRaised(Raise(f, ss[0]), ss[1..], t);
      assert t in ss <==> (t == ss[0] || t in ss[1..]);
    }
  }

  /** Starting from Limbo and raising the sequences of `ss`, the scan
      answers the smallest of them, or Limbo when `ss` is empty. */
  lemma HighestPriorityIsMinimum(ss: seq<SequenceNumber>)
    ensures |ss| == 0 ==> HighestPriorityRaisedFlag(RaiseAll(NoFlags(), ss)).None?
    ensures |ss| > 0 ==> HighestPriorityRaisedFlag(RaiseAll(NoFlags(), ss)) == Some(MinOf(ss))
  {
    var f := RaiseAll(NoFlags(), ss);
    forall t: SequenceNumber
      ensures Raised(f, t) <==> t in ss
    {
      RaiseAllRaised(NoFlags(), ss, t);
    }
    var r := HighestPriorityRaisedFlag(f);
    if |ss| > 0 {
      var m := MinOf(ss);
      assert Raised(f, m);
      assert r.Some?;
      assert r.value in ss;
      assert !(r.value < m);
      assert !(m < r.value);
    }
  }
}
