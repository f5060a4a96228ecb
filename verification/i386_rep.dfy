/** Interruptible REP string operations: a REP yields to interrupts between iterations by rewinding EIP to
    its prefix, and re-entering it until EIP moves past is one uninterrupted execution. */
module I386Rep {
  import opened I386Machine

  datatype Prim = Movs | Cmps | Stos | Lods | Scas

  /** CMPS and SCAS also stop on the zero flag. */
  predicate Compares(p: Prim) {
    p == Cmps || p == Scas
  }

  /** The two flags string operations look at. */
  datatype StringFlags<!F> = StringFlags(zf: F -> bool, df: F -> bool)

  // --- Registers by address size ---------------------------------------------------------------------

  function Index<F, M>(c: Context, s: S<F, M>, i: reg): u32 {
    if c.asize32 then s.gpr[i] else Low16(s.gpr[i])
  }

  function SetIndex<F, M>(c: Context, s: S<F, M>, i: reg, x: u32): S<F, M> {
    s.(gpr := s.gpr[i := if c.asize32 then x else LowWord(s.gpr[i], Low16(x))])
  }

  /** (E)CX. */
  function Count<F, M>(c: Context, s: S<F, M>): u32 {
    Index(c, s, ECX)
  }

  function Advance<F, M>(fl: StringFlags<F>, c: Context, s: S<F, M>, i: reg, w: Width): S<F, M> {
    SetIndex(c, s, i, Wrap(Index(c, s, i) + if fl.df(s.flags) then 0 - Bytes(w) else Bytes(w)))
  }

  // --- One iteration -----------------------------------------------------------------------------------

  const ES: bv8 := 0

  function Once<F, M>(hw: Hardware<F, M>, fl: StringFlags<F>, c: Context, p: Prim, w: Width, s: S<F, M>)
    : Out<F, M, ()>
  {
    var from, to := Mem(c.Seg(DS), Index(c, s, ESI)), Mem(ES, Index(c, s, EDI));
    match p
    case Movs =>
      var (_, x) :- ReadOp(hw, s, w, from);
      var (s1, _) :- WriteOp(hw, s, w, to, x);
      Ok(Advance(fl, c, Advance(fl, c, s1, ESI, w), EDI, w), ())
    case Cmps =>
      var (_, a) :- ReadOp(hw, s, w, from);
      var (_, b) :- ReadOp(hw, s, w, to);
      var t := s.(flags := hw.alu(7, w, s.flags, a, b).1);
      Ok(Advance(fl, c, Advance(fl, c, t, ESI, w), EDI, w), ())
    case Stos =>
      var (s1, _) :- WriteOp(hw, s, w, to, Trunc(w, s.gpr[0]));
      Ok(Advance(fl, c, s1, EDI, w), ())
    case Lods =>
      var (_, x) :- ReadOp(hw, s, w, from);
      Ok(Advance(fl, c, Put(s, w, 0, x), ESI, w), ())
    case Scas =>
      var (_, b) :- ReadOp(hw, s, w, to);
      var t := s.(flags := hw.alu(7, w, s.flags, Trunc(w, s.gpr[0]), b).1);
      Ok(Advance(fl, c, t, EDI, w), ())
  }

  /** An iteration leaves the count register, EIP and the length count alone. */
  lemma OnceKeepsCount<F, M>(hw: Hardware<F, M>, fl: StringFlags<F>, c: Context, p: Prim, w: Width, s: S<F, M>)
    ensures var t := Once(hw, fl, c, p, w, s).s;
            t.gpr[ECX] == s.gpr[ECX] && t.eip == s.eip && t.ilen == s.ilen
  {
    hide Wrap, LowWord, LowByte, Low16, Trunc;
  }

  /** One iteration and the count step. */
  function Iterate<F, M>(hw: Hardware<F, M>, fl: StringFlags<F>, c: Context, p: Prim, w: Width, s: S<F, M>)
    : (o: Out<F, M, ()>)
    requires Count(c, s) > 0
    ensures o.Ok? ==> Count(c, o.s) == Count(c, s) - 1
    ensures o.Fault? ==> Count(c, o.s) == Count(c, s)
    ensures o.s.eip == s.eip && (!c.asize32 ==> o.s.gpr[ECX] / 0x1_0000 == s.gpr[ECX] / 0x1_0000)
  {
    OnceKeepsCount(hw, fl, c, p, w, s);
    var o := Once(hw, fl, c, p, w, s);
    if o.Fault? then o
    else
      CountSteps(c, o.s);
      Ok(SetIndex(c, o.s, ECX, Count(c, o.s) - 1), ())
  }

  lemma CountSteps<F, M>(c: Context, s: S<F, M>)
    requires Count(c, s) > 0
    ensures var t := SetIndex(c, s, ECX, Count(c, s) - 1);
            Count(c, t) == Count(c, s) - 1 && (!c.asize32 ==> t.gpr[ECX] / 0x1_0000 == s.gpr[ECX] / 0x1_0000)
  {
    LowHalf(s.gpr[ECX], if Low16(s.gpr[ECX]) > 0 then Low16(s.gpr[ECX]) - 1 else 0);
  }

  lemma LowHalf(h: u32, x: u16)
    ensures Low16(LowWord(h, x)) == x && LowWord(h, x) / 0x1_0000 == h / 0x1_0000
  {
    var q := h / 0x1_0000;
    assert h - h % 0x1_0000 == 0x1_0000 * q;
  }

  // --- The uninterrupted loop -----------------------------------------------------------------------------

  /** Whether CMPS or SCAS stops here. */
  predicate Stops<F, M>(fl: StringFlags<F>, p: Prim, contOnZf: bool, s: S<F, M>) {
    Compares(p) && fl.zf(s.flags) != contOnZf
  }

  /** The whole repetition. */
  function Whole<F, M>(hw: Hardware<F, M>, fl: StringFlags<F>, c: Context, p: Prim, w: Width, contOnZf: bool,
                       s: S<F, M>): Out<F, M, ()>
    decreases Count(c, s)
  {
    if Count(c, s) == 0 then Ok(s, ())
    else
      var o := Iterate(hw, fl, c, p, w, s);
      if o.Fault? || Stops(fl, p, contOnZf, o.s) then o else Whole(hw, fl, c, p, w, contOnZf, o.s)
  }

  /** The same from a state that an interrupt left: iterating once more is the rest of the whole. */
  lemma WholeStep<F, M>(hw: Hardware<F, M>, fl: StringFlags<F>, c: Context, p: Prim, w: Width, contOnZf: bool,
                        s: S<F, M>)
    requires Count(c, s) > 0
    ensures var o := Iterate(hw, fl, c, p, w, s);
            Whole(hw, fl, c, p, w, contOnZf, s) ==
            if o.Fault? || Stops(fl, p, contOnZf, o.s) then o else Whole(hw, fl, c, p, w, contOnZf, o.s)
  {
  }

  lemma WholeDone<F, M>(hw: Hardware<F, M>, fl: StringFlags<F>, c: Context, p: Prim, w: Width, contOnZf: bool,
                        s: S<F, M>)
    requires Count(c, s) == 0
    ensures Whole(hw, fl, c, p, w, contOnZf, s) == Ok(s, ())
  {
  }

  /** An outcome with EIP moved. */
  function At<F, M>(o: Out<F, M, ()>, ip: u32): Out<F, M, ()> {
    match o
    case Ok(s, _) => Ok(s.(eip := ip), ())
    case Fault(s, e) => Fault(s.(eip := ip), e)
  }

  /** Moving EIP commutes with the whole repetition: no iteration looks at it. */
  lemma {:induction false} WholeAtEip<F, M>(hw: Hardware<F, M>, fl: StringFlags<F>, c: Context, p: Prim, w: Width,
                                            contOnZf: bool, s: S<F, M>, ip: u32)
    ensures Whole(hw, fl, c, p, w, contOnZf, s.(eip := ip)) == At(Whole(hw, fl, c, p, w, contOnZf, s), ip)
    decreases Count(c, s)
  {
    hide Iterate, Stops, Whole, Count;
    CountAtEip(c, s, ip);
    if Count(c, s) > 0 {
      IterateAtEip(hw, fl, c, p, w, s, ip);
      var o := Iterate(hw, fl, c, p, w, s);
      StopsAtEip(fl, p, contOnZf, o.s, ip);
      WholeStep(hw, fl, c, p, w, contOnZf, s);
      WholeStep(hw, fl, c, p, w, contOnZf, s.(eip := ip));
      if o.Ok? && !Stops(fl, p, contOnZf, o.s) {
        WholeAtEip(hw, fl, c, p, w, contOnZf, o.s, ip);
      }
    } else {
      WholeDone(hw, fl, c, p, w, contOnZf, s);
      WholeDone(hw, fl, c, p, w, contOnZf, s.(eip := ip));
    }
  }

  lemma CountAtEip<F, M>(c: Context, s: S<F, M>, ip: u32)
    ensures Count(c, s.(eip := ip)) == Count(c, s)
  {
  }

  lemma IterateAtEip<F, M>(hw: Hardware<F, M>, fl: StringFlags<F>, c: Context, p: Prim, w: Width, s: S<F, M>, ip: u32)
    requires Count(c, s) > 0
    ensures Count(c, s.(eip := ip)) > 0
    ensures Iterate(hw, fl, c, p, w, s.(eip := ip)) == At(Iterate(hw, fl, c, p, w, s), ip)
  {
    hide Once, LowWord, Low16;
    OnceAtEip(hw, fl, c, p, w, s, ip);
    OnceKeepsCount(hw, fl, c, p, w, s);
  }

  lemma StopsAtEip<F, M>(fl: StringFlags<F>, p: Prim, contOnZf: bool, s: S<F, M>, ip: u32)
    ensures Stops(fl, p, contOnZf, s.(eip := ip)) == Stops(fl, p, contOnZf, s)
  {
  }

  lemma OnceAtEip<F, M>(hw: Hardware<F, M>, fl: StringFlags<F>, c: Context, p: Prim, w: Width, s: S<F, M>, ip: u32)
    ensures Once(hw, fl, c, p, w, s.(eip := ip)) == At(Once(hw, fl, c, p, w, s), ip)
  {
    hide Wrap, LowWord, LowByte, Low16, Trunc, SetReg, Advance, Index;
    IndexAtEip(c, s, ip);
    var from, to := Mem(c.Seg(DS), Index(c, s, ESI)), Mem(ES, Index(c, s, EDI));
    match p
    case Movs =>
      var r := ReadOp(hw, s, w, from);
      if r.Ok? && WriteOp(hw, s, w, to, r.v).Ok? {
        var s1 := WriteOp(hw, s, w, to, r.v).s;
        AdvanceAtEip(fl, c, s1, ESI, w, ip);
        AdvanceAtEip(fl, c, Advance(fl, c, s1, ESI, w), EDI, w, ip);
      }
    case Cmps =>
      var a, b := ReadOp(hw, s, w, from), ReadOp(hw, s, w, to);
      if a.Ok? && b.Ok? {
        var s1 := s.(flags := hw.alu(7, w, s.flags, a.v, b.v).1);
        AdvanceAtEip(fl, c, s1, ESI, w, ip);
        AdvanceAtEip(fl, c, Advance(fl, c, s1, ESI, w), EDI, w, ip);
      }
    case Stos =>
      var r := WriteOp(hw, s, w, to, Trunc(w, s.gpr[0]));
      if r.Ok? {
        AdvanceAtEip(fl, c, r.s, EDI, w, ip);
      }
    case Lods =>
      var r := ReadOp(hw, s, w, from);
      if r.Ok? {
        AdvanceAtEip(fl, c, Put(s, w, 0, r.v), ESI, w, ip);
      }
    case Scas =>
      var b := ReadOp(hw, s, w, to);
      if b.Ok? {
        AdvanceAtEip(fl, c, s.(flags := hw.alu(7, w, s.flags, Trunc(w, s.gpr[0]), b.v).1), EDI, w, ip);
      }
  }

  lemma IndexAtEip<F, M>(c: Context, s: S<F, M>, ip: u32)
    ensures forall i: reg :: Index(c, s.(eip := ip), i) == Index(c, s, i)
  {
  }

  lemma AdvanceAtEip<F, M>(fl: StringFlags<F>, c: Context, s: S<F, M>, i: reg, w: Width, ip: u32)
    ensures Advance(fl, c, s.(eip := ip), i, w) == Advance(fl, c, s, i, w).(eip := ip)
  {
    hide Wrap, LowWord, Low16;
  }

  // --- The processor ------------------------------------------------------------------------------------------

  /** A processor about to execute one REP-prefixed string instruction. */
  class StringUnit<F, M> {
    var s: S<F, M>
    /** Where the instruction starts, prefixes included, and where the next one does. */
    const startEip: u32
    const nextEip: u32

    constructor (s0: S<F, M>, start: u32, next: u32)
      requires start != next
      ensures s == s0 && startEip == start && nextEip == next
    {
      s, startEip, nextEip := s0, start, next;
    }

    /** Run iterations until the count, the zero flag or an interrupt ends them. */
    method StringOp(hw: Hardware<F, M>, fl: StringFlags<F>, c: Context, p: Prim, w: Width, contOnZf: bool,
                    pending: nat -> bool) returns (fault: Option<Exn>, cycles: nat)
      requires startEip != nextEip && s.eip == nextEip
      modifies this`s
      ensures fault.Some? ==> Whole(hw, fl, c, p, w, contOnZf, old(s)) == Fault(s, fault.value)
      ensures fault == None && s.eip == nextEip ==> Whole(hw, fl, c, p, w, contOnZf, old(s)) == Ok(s, ())
      ensures fault == None && s.eip != nextEip ==>
                && s.eip == startEip && 0 < Count(c, s) < Count(c, old(s))
                && Whole(hw, fl, c, p, w, contOnZf, s.(eip := nextEip)) == Whole(hw, fl, c, p, w, contOnZf, old(s))
      ensures (forall k :: !pending(k)) ==> fault.Some? || s.eip == nextEip
      ensures fault == None ==> cycles == 5 + 4 * (Count(c, old(s)) - Count(c, s))
      ensures !c.asize32 ==> s.gpr[ECX] / 0x1_0000 == old(s).gpr[ECX] / 0x1_0000
    {
      hide Once, Stops, Whole, Iterate;
      fault, cycles := None, 5;
      ghost var n := Count(c, s);
      var polls: nat := 0;
      while Count(c, s) != 0
        invariant s.eip == nextEip && Count(c, s) <= n && cycles == 5 + 4 * (n - Count(c, s))
        invariant Whole(hw, fl, c, p, w, contOnZf, s) == Whole(hw, fl, c, p, w, contOnZf, old(s))
        invariant !c.asize32 ==> s.gpr[ECX] / 0x1_0000 == old(s).gpr[ECX] / 0x1_0000
        decreases Count(c, s)
      {
        WholeStep(hw, fl, c, p, w, contOnZf, s);
        var o := Iterate(hw, fl, c, p, w, s);
        s := o.s;
        assert o.Ok? ==> o.v == ();
        if o.Fault? {
          return Some(o.e), cycles;
        }
        cycles := cycles + 4;
        if Stops(fl, p, contOnZf, s) {
          return;
        }
        if Count(c, s) != 0 && pending(polls) {
          WholeAtEip(hw, fl, c, p, w, contOnZf, s, nextEip);
          assert s.(eip := nextEip) == s;
          s := s.(eip := startEip);
          return;
        }
        polls := polls + 1;
      }
      WholeDone(hw, fl, c, p, w, contOnZf, s);
    }

    /** Enter the instruction again and again, with any interrupts in between, until EIP is past it. */
    method Resume(hw: Hardware<F, M>, fl: StringFlags<F>, c: Context, p: Prim, w: Width, contOnZf: bool,
                  pending: nat -> nat -> bool) returns (fault: Option<Exn>, entries: nat)
      requires startEip != nextEip && s.eip == startEip
      modifies this`s
      ensures var whole := Whole(hw, fl, c, p, w, contOnZf, old(s).(eip := nextEip));
              if fault.Some? then whole == Fault(s, fault.value) else whole == Ok(s, ()) && s.eip == nextEip
      ensures entries <= Count(c, old(s)) + 1
    {
      hide Whole;
      fault, entries := None, 0;
      ghost var s0 := s;
      while s.eip == startEip
        invariant fault == None && (s.eip == startEip || s.eip == nextEip)
        invariant s.eip == startEip ==>
                    && Whole(hw, fl, c, p, w, contOnZf, s.(eip := nextEip)) ==
                       Whole(hw, fl, c, p, w, contOnZf, s0.(eip := nextEip))
                    && entries + Count(c, s) <= Count(c, s0)
        invariant s.eip == nextEip ==>
                    Whole(hw, fl, c, p, w, contOnZf, s0.(eip := nextEip)) == Ok(s, ()) && entries <= Count(c, s0) + 1
        decreases s.eip == startEip, Count(c, s)
      {
        s := s.(eip := nextEip);
        var cycles: nat;
        fault, cycles := StringOp(hw, fl, c, p, w, contOnZf, pending(entries));
        entries := entries + 1;
        if fault.Some? {
          return;
        }
      }
    }
  }
}
