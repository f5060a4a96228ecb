/** Decoding and then executing means the same as interpreting directly, for every opcode, byte stream,
    prefix state, register file, ALU and (side-effect-free) memory. */
module I386Equivalence {
  import opened I386Machine
  import opened I386Hot

  // --- The packed fields -------------------------------------------------------------------------------

  /** The fields that are not packed. */
  ghost predicate SameFields(d: Insn, e: Insn) {
    && e.op == d.op && e.reg == d.reg && e.aux == d.aux && e.base == d.base && e.index == d.index
    && e.disp == d.disp && e.imm == d.imm
  }

  /** Each packed field reads back what was set, and setting one leaves the others alone. */
  lemma SetKindSays(d: Insn, k: Kind)
    ensures var e := d.SetKind(k);
            && e.Kind() == k && SameFields(d, e) && e.Osize32() == d.Osize32() && e.Asize32() == d.Asize32()
            && e.Wb() == d.Wb() && e.Npfx() == d.Npfx() && e.Seg() == d.Seg() && e.Scale() == d.Scale()
            && e.SegOverride() == d.SegOverride()
  {
  }

  lemma SetSegSays(d: Insn, seg: bv8)
    requires seg < 8
    ensures var e := d.SetSeg(seg);
            && e.Seg() == seg && SameFields(d, e) && e.Scale() == d.Scale() && e.SegOverride() == d.SegOverride()
            && e.Kind() == d.Kind() && e.Osize32() == d.Osize32() && e.Asize32() == d.Asize32()
            && e.Wb() == d.Wb() && e.Npfx() == d.Npfx()
  {
  }

  lemma SetScaleSays(d: Insn, scale: nat)
    requires scale < 4
    ensures var e := d.SetScale(scale);
            && e.Scale() == scale && SameFields(d, e) && e.Seg() == d.Seg() && e.SegOverride() == d.SegOverride()
            && e.Kind() == d.Kind() && e.Osize32() == d.Osize32() && e.Asize32() == d.Asize32()
            && e.Wb() == d.Wb() && e.Npfx() == d.Npfx()
  {
  }

  lemma SetWbSays(d: Insn, wb: bool)
    ensures var e := d.SetWb(wb);
            && e.Wb() == (wb || d.Wb()) && SameFields(d, e) && e.Kind() == d.Kind() && e.Osize32() == d.Osize32()
            && e.Asize32() == d.Asize32() && e.Npfx() == d.Npfx() && e.Seg() == d.Seg() && e.Scale() == d.Scale()
            && e.SegOverride() == d.SegOverride()
  {
  }

  lemma PrefixCount(d: Insn, n: nat)
    requires n <= 7 && d.Npfx() == 0
    ensures var e := d.SetNpfx(PrefixBits(n));
            e.Npfx() == PrefixBits(n) && e.Kind() == d.Kind() && e.Wb() == d.Wb() && e.Osize32() == d.Osize32() &&
            e.Asize32() == d.Asize32()
  {
  }

  /** What a blank instruction says. */
  lemma BlankSays(c: Context)
    requires Encodable(c)
    ensures var d := Blank(c);
            && d.Osize32() == c.osize32 && d.Asize32() == c.asize32 && !d.Wb() && d.Kind() == NoOperand && d.Npfx() == 0
            && d.Scale() == 0 && d.SegOverride() == c.segOverride
  {
  }

  // --- Effective addresses ---------------------------------------------------------------------------------

  /** A decode in progress: prefix state packed, operand not yet decoded. */
  ghost predicate Clean(d: Insn, c: Context) {
    && d.base == NONE && d.index == NONE && d.disp == 0 && d.Scale() == 0 && d.Kind() == NoOperand && d.Npfx() == 0
    && d.Asize32() == c.asize32 && d.Osize32() == c.osize32 && d.SegOverride() == c.segOverride
  }

  /** A decoded operand keeps everything else that was decided before it. */
  ghost predicate Carries(d: Insn, e: Insn) {
    && e.op == d.op && e.aux == d.aux && e.imm == d.imm && e.Wb() == d.Wb() && e.Npfx() == d.Npfx()
    && e.Asize32() == d.Asize32() && e.Osize32() == d.Osize32() && e.SegOverride() == d.SegOverride()
  }

  /** Fetching moves EIP and the length count only. */
  ghost predicate Kept<F, M>(s: S<F, M>, t: S<F, M>) {
    t.gpr == s.gpr && t.flags == s.flags && t.mem == s.mem
  }

  lemma Fetched8<F, M>(hw: Hardware<F, M>, s: S<F, M>)
    ensures Kept(s, Fetch8(hw, s).s)
  {
  }

  lemma Fetched16<F, M>(hw: Hardware<F, M>, s: S<F, M>)
    ensures Kept(s, Fetch16(hw, s).s)
  {
    hide Fetch8;
    Fetched8(hw, s);
    Fetched8(hw, Fetch8(hw, s).s);
  }

  lemma Fetched32<F, M>(hw: Hardware<F, M>, s: S<F, M>)
    ensures Kept(s, Fetch32(hw, s).s)
  {
    hide Fetch16;
    Fetched16(hw, s);
    Fetched16(hw, Fetch16(hw, s).s);
  }

  lemma FetchedDisp<F, M>(hw: Hardware<F, M>, s: S<F, M>, md: nat, wide: bool)
    ensures Kept(s, Disp(hw, s, md, wide).s)
    ensures !wide && Disp(hw, s, md, wide).Ok? ==> Disp(hw, s, md, wide).v < 0x1_0000
    ensures md == 0 ==> Disp(hw, s, md, wide) == Ok(s, 0)
  {
    hide Fetch8, Fetch16, Fetch32;
    Fetched8(hw, s);
    Fetched16(hw, s);
    Fetched32(hw, s);
  }

  lemma FetchedImm<F, M>(hw: Hardware<F, M>, c: Context, s: S<F, M>, k: ImmKind)
    ensures Kept(s, FetchImm(hw, c, s, k).s)
  {
    hide Fetch8, Fetch16, Fetch32;
    Fetched8(hw, s);
    Fetched16(hw, s);
    Fetched32(hw, s);
  }

  lemma SegFits(c: Context, d: bv8)
    requires Encodable(c) && d < 8
    ensures c.Seg(d) < 8
  {
  }

  /** The formula decoder and the resolver consume the same bytes and mean the same operand. */
  ghost predicate SameOperand<F, M>(s: S<F, M>, d: Insn, a: Out<F, M, Insn>, b: Out<F, M, Operand>) {
    if b.Fault? then a == b.PropagateFailure()
    else
      && a.Ok? && a.s == b.s && a.s.gpr == s.gpr && a.s.flags == s.flags && a.s.mem == s.mem
      && Carries(d, a.v) && a.v.reg == d.reg && EaOperand(s.gpr, a.v) == b.v
      && (a.v.Kind() == MemOperand <==> b.v.Mem?)
  }

  function Mod16(x: nat): nat {
    x % 0x1_0000
  }

  /** The 32-bit sum of base, index and displacement, masked, is the 16-bit sum. */
  lemma Sum16(a: u32, b: u32, disp: u32)
    ensures Mod16(Wrap(Wrap(disp + a) + b)) == Mod16(Mod16(Low16(a) + Low16(b)) + disp)
    ensures Mod16(Wrap(disp + a)) == Mod16(Mod16(Low16(a)) + disp)
  {
    hide Wrap, Mod16, Low16;
    Low16Is(a);
    Low16Is(b);
    WrapMod(disp + a);
    WrapMod(Wrap(disp + a) + b);
    LowSum(Wrap(disp + a), b);
    LowSum(disp + a, b);
    LowSum(a, b);
    LowSum(a + b, disp);
    LowSum(a, disp);
    LowSum(a, 0);
    assert disp + a + b == a + b + disp && disp + a == a + disp && Mod16(a) + 0 == Mod16(a);
  }

  lemma Low16Is(a: u32)
    ensures Low16(a) == Mod16(a)
  {
  }

  lemma WrapMod(x: nat)
    ensures Mod16(Wrap(x)) == Mod16(x)
  {
    var q := x / 0x1_0000_0000;
    assert x == 0x1_0000 * (0x1_0000 * q) + Wrap(x);
    LowOnly(0x1_0000 * q, Wrap(x));
  }

  lemma LowOnly(q: nat, r: nat)
    ensures Mod16(0x1_0000 * q + r) == Mod16(r)
  {
  }

  lemma LowSum(a: nat, b: nat)
    ensures Mod16(a + b) == Mod16(Mod16(a) + Mod16(b)) == Mod16(Mod16(a) + b)
  {
    var q, r := a / 0x1_0000, b / 0x1_0000;
    assert a == 0x1_0000 * q + Mod16(a) && b == 0x1_0000 * r + Mod16(b);
    LowOnly(q + r, Mod16(a) + Mod16(b));
    LowOnly(q, Mod16(a) + b);
  }

  lemma WrapSum(x: int, y: int)
    ensures Wrap(Wrap(x) + y) == Wrap(x + y)
  {
    var q := x / 0x1_0000_0000;
    assert x == 0x1_0000_0000 * q + Wrap(x);
    WrapShift(Wrap(x) + y, q);
  }

  lemma WrapShift(x: int, q: int)
    ensures Wrap(x + 0x1_0000_0000 * q) == Wrap(x)
  {
  }

  /** Filling in the formula changes no packed field. */
  lemma Reshaped(d: Insn, base: slot, index: slot, disp: u32)
    ensures var e := d.(base := base, index := index, disp := disp);
            && Carries(d, e) && e.Kind() == d.Kind() && e.Scale() == d.Scale() && e.reg == d.reg
  {
  }

  /** What the 16-bit formula decoder packs. */
  lemma Ea16Built<F, M>(hw: Hardware<F, M>, c: Context, s: S<F, M>, m: u8, d: Insn)
    requires Encodable(c) && Ea16Formula(hw, c, s, m, d).Ok?
    ensures var e, direct := Ea16Formula(hw, c, s, m, d).v, Md(m) == 0 && Rm(m) == 6;
            && Carries(d, e) && e.reg == d.reg && e.Kind() == d.Kind() && e.Scale() == d.Scale()
            && e.Seg() == c.Seg(if direct then DS else Seg16(Rm(m)))
            && (if direct then e.base == d.base && e.index == d.index &&
                               Fetch16(hw, s).Ok? && e.disp == Fetch16(hw, s).v
                else e.base == Base16(Rm(m)) && e.index == Index16(Rm(m)) && Disp(hw, s, Md(m), false).Ok? &&
                     e.disp == Disp(hw, s, Md(m), false).v)
  {
    hide Wrap, Insn.Kind, Insn.Scale, Insn.Seg, Insn.SetSeg, Insn.Asize32, Insn.Osize32, Insn.Wb, Insn.Npfx,
      Insn.SegOverride, Context.Seg, Fetch16, Disp, Base16, Index16, Seg16;
    SegFits(c, DS);
    if Md(m) == 0 && Rm(m) == 6 {
      var off: u32 := Fetch16(hw, s).v;
      Reshaped(d, d.base, d.index, off);
      SetSegSays(d.(disp := off), c.Seg(DS));
    } else {
      var off := Disp(hw, s, Md(m), false).v;
      SegFits(c, Seg16(Rm(m)));
      Reshaped(d, Base16(Rm(m)), Index16(Rm(m)), off);
      SetSegSays(d.(base := Base16(Rm(m)), index := Index16(Rm(m)), disp := off), c.Seg(Seg16(Rm(m))));
    }
  }

  /** 16-bit addressing: masking the full-width sum is the 16-bit sum. */
  lemma Ea16Agrees<F, M>(hw: Hardware<F, M>, c: Context, s: S<F, M>, m: u8, d: Insn)
    requires Encodable(c) && Md(m) != 3 && d.base == NONE && d.index == NONE && d.disp == 0
    requires d.Kind() == MemOperand && d.Scale() == 0 && !d.Asize32()
    ensures SameOperand(s, d, Ea16Formula(hw, c, s, m, d), Ea16(hw, c, s, m))
  {
    hide Wrap, Insn.Kind, Insn.Scale, Insn.Seg, Insn.SetSeg, Insn.Asize32, Insn.Osize32, Insn.Wb, Insn.Npfx,
      Insn.SegOverride, Context.Seg, Fetch16, Disp, EaOperand, Low16, Mod16, Scaled;
    Fetched16(hw, s);
    FetchedDisp(hw, s, Md(m), false);
    var a := Ea16Formula(hw, c, s, m, d);
    if a.Ok? {
      Ea16Built(hw, c, s, m, d);
      Formula16(s.gpr, a.v);
      if !(Md(m) == 0 && Rm(m) == 6) {
        var g := s.gpr;
        Sum16(g[Base16(Rm(m))], if Index16(Rm(m)) != NONE then g[Index16(Rm(m))] else 0, a.v.disp);
        Resolved16(hw, c, s, m);
      }
    }
  }

  /** The 16-bit resolver through the same table. */
  lemma Resolved16<F, M>(hw: Hardware<F, M>, c: Context, s: S<F, M>, m: u8)
    requires !(Md(m) == 0 && Rm(m) == 6)
    ensures var o := Disp(hw, s, Md(m), false);
            var b, i := Low16(s.gpr[Base16(Rm(m))]), Index16(Rm(m));
            Ea16(hw, c, s, m) ==
            if o.Fault? then Fault(o.s, o.e)
            else Ok(o.s, Mem(c.Seg(Seg16(Rm(m))), if i != NONE then Mod16(Mod16(b + Low16(s.gpr[i])) + o.v)
                                                  else Mod16(Mod16(b) + o.v)))
  {
    hide Disp, Low16, Context.Seg;
  }

  /** A 16-bit formula, masked. */
  lemma Formula16(g: Gpr, d: Insn)
    requires d.Kind() == MemOperand && d.Scale() == 0 && !d.Asize32()
    requires d.base == NONE ==> d.index == NONE && d.disp < 0x1_0000
    requires d.base != NONE ==> d.base < 8 && (d.index == NONE || d.index < 8)
    ensures EaOperand(g, d) ==
            Mem(d.Seg(), if d.base == NONE then d.disp
                         else if d.index == NONE then Mod16(Wrap(d.disp + g[d.base]))
                         else Mod16(Wrap(Wrap(d.disp + g[d.base]) + g[d.index])))
  {
    hide Wrap, Insn.Kind, Insn.Scale, Insn.Seg, Insn.Asize32;
  }

  // --- 32-bit addressing -----------------------------------------------------------------------------------

  lemma WrapOf(x: u32)
    ensures Wrap(x) == x
  {
  }

  /** The same three terms, in either order. */
  lemma Sum32(b: u32, i: u32, disp: u32)
    ensures Wrap(Wrap(disp + b) + i) == Wrap(Wrap(b + i) + disp)
  {
    hide Wrap;
    WrapSum(disp + b, i);
    WrapSum(b + i, disp);
    assert disp + b + i == b + i + disp;
  }

  /** The default segment of a base register. */
  function SegOfBase(base: reg): (x: bv8)
    ensures x < 8
  {
    if base == ESP || base == EBP then SS else DS
  }

  /** What the SIB formula packs: the scaled-base quirk becomes an index without a base. */
  ghost predicate SibSays(d: Insn, e: Insn, sib: u8, replaced: bool) {
    var index, base := sib / 8 % 8, sib % 8;
    && Carries(d, e) && e.reg == d.reg && e.Kind() == d.Kind()
    && e.Scale() == (if index == 4 && replaced then 0 else sib / 64)
    && e.base == (if replaced || index == 4 then NONE else base)
    && e.index == (if index != 4 then index else if replaced then NONE else base)
    && (!replaced ==> e.disp == 0)
  }

  lemma SibBuilt<F, M>(hw: Hardware<F, M>, s: S<F, M>, m: u8, d: Insn)
    requires d.base == NONE && d.index == NONE && d.disp == 0 && d.Scale() == 0 && SibFormula(hw, s, m, d).Ok?
    ensures Fetch8(hw, s).Ok?
    ensures var sib, r := Fetch8(hw, s).v, SibFormula(hw, s, m, d);
            var replaced := sib % 8 == 5 && Md(m) == 0;
            && SibSays(d, r.v.0, sib, replaced)
            && r.v.1 == (if replaced then DS else SegOfBase(sib % 8))
            && (replaced ==> Fetch32(hw, Fetch8(hw, s).s).Ok? && r.v.0.disp == Fetch32(hw, Fetch8(hw, s).s).v)
  {
    hide Insn.Kind, Insn.Scale, Insn.Seg, Insn.SetScale, Insn.Asize32, Insn.Osize32, Insn.Wb, Insn.Npfx,
      Insn.SegOverride, Fetch8, Fetch32;
    var sib := Fetch8(hw, s).v;
    var scale, index, base: reg := sib / 64, sib / 8 % 8, sib % 8;
    if base == 5 && Md(m) == 0 {
      var disp := Fetch32(hw, Fetch8(hw, s).s).v;
      Reshaped(d, NONE, NONE, disp);
      Reshaped(d, NONE, index, disp);
      SetScaleSays(d.(disp := disp, index := index), scale);
    } else {
      Reshaped(d, base, index, 0);
      Reshaped(d, NONE, base, 0);
      SetScaleSays(d.(base := base, index := index), scale);
      SetScaleSays(d.(base := NONE, index := base), scale);
    }
  }

  /** The base and index sum that a SIB formula stands for, without the displacement. */
  function SibSum(g: Gpr, e: Insn): u32
    requires e.base == NONE || e.base < 8
    requires e.index == NONE || e.index < 8
  {
    var i := if e.index != NONE then Scaled(g[e.index], e.Scale()) else 0;
    if e.base != NONE then Wrap(g[e.base] + i) else if e.index != NONE then Wrap(e.disp + i) else e.disp
  }

  lemma SibAgrees<F, M>(hw: Hardware<F, M>, s: S<F, M>, m: u8, d: Insn)
    requires d.base == NONE && d.index == NONE && d.disp == 0 && d.Scale() == 0
    ensures var a, b := SibFormula(hw, s, m, d), Sib(hw, s, m);
            if b.Fault? then a == b.PropagateFailure()
            else
              && a.Ok? && a.s == b.s && Kept(s, a.s) && a.v.1 == b.v.1 && a.v.1 < 8
              && (a.v.0.base == NONE || a.v.0.base < 8) && (a.v.0.index == NONE || a.v.0.index < 8)
              && (a.v.0.base != NONE ==> a.v.0.disp == 0)
              && (a.v.0.base == NONE && a.v.0.disp != 0 ==> Md(m) == 0)
              && SibSum(s.gpr, a.v.0) == b.v.0
              && Carries(d, a.v.0) && a.v.0.reg == d.reg && a.v.0.Kind() == d.Kind()
  {
    hide Insn.Kind, Insn.Scale, Insn.Seg, Insn.SetScale, Insn.Asize32, Insn.Osize32, Insn.Wb, Insn.Npfx,
      Insn.SegOverride, Fetch8, Fetch32, Scaled, Wrap;
    Fetched8(hw, s);
    Fetched32(hw, Fetch8(hw, s).s);
    if SibFormula(hw, s, m, d).Ok? {
      SibBuilt(hw, s, m, d);
      var sib := Fetch8(hw, s).v;
      WrapOf(Scaled(s.gpr[sib % 8], sib / 64));
      assert 0 + Scaled(s.gpr[sib % 8], sib / 64) == Scaled(s.gpr[sib % 8], sib / 64);
    }
  }

  /** Folding the displacement into a formula. */
  lemma Displaced(g: Gpr, d: Insn, disp: u32, seg: bv8)
    requires d.Kind() == MemOperand && d.Asize32() && seg < 8
    requires (d.base == NONE || d.base < 8) && (d.index == NONE || d.index < 8)
    requires d.disp == 0 || (d.base == NONE && disp == 0)
    ensures var e := d.(disp := Wrap(d.disp + disp)).SetSeg(seg);
            && EaOperand(g, e) == Mem(seg, Wrap(SibSum(g, d) + disp)) && e.Kind() == MemOperand
            && Carries(d, e) && e.reg == d.reg
  {
    hide Insn.Kind, Insn.Scale, Insn.Seg, Insn.SetSeg, Insn.Asize32, Insn.Osize32, Insn.Wb, Insn.Npfx,
      Insn.SegOverride, Scaled, Wrap;
    var total := Wrap(d.disp + disp);
    Reshaped(d, d.base, d.index, total);
    SetSegSays(d.(disp := total), seg);
    WrapOf(d.disp);
    WrapOf(disp);
    assert d.disp == 0 ==> total == disp;
    assert disp == 0 ==> total == d.disp;
    var i := if d.index != NONE then Scaled(g[d.index], d.Scale()) else 0;
    WrapOf(i);
    if d.base != NONE {
      Sum32(g[d.base], i, disp);
      WrapOf(g[d.base]);
      WrapOf(Wrap(disp + g[d.base]));
    } else {
      WrapSum(d.disp + i, disp);
      WrapOf(Wrap(d.disp + i));
    }
  }

  lemma Ea32Agrees<F, M>(hw: Hardware<F, M>, c: Context, s: S<F, M>, m: u8, d: Insn)
    requires Encodable(c) && Md(m) != 3 && d.base == NONE && d.index == NONE && d.disp == 0
    requires d.Kind() == MemOperand && d.Scale() == 0 && d.Asize32()
    ensures SameOperand(s, d, Ea32Formula(hw, c, s, m, d), Ea32(hw, c, s, m))
  {
    hide Insn.Kind, Insn.Scale, Insn.Seg, Insn.SetSeg, Insn.Asize32, Insn.Osize32, Insn.Wb, Insn.Npfx,
      Insn.SegOverride, Context.Seg, Fetch8, Fetch32, Disp, EaOperand, SibFormula, Sib, SibSum, Wrap;
    SegFits(c, DS);
    SegFits(c, SS);
    if Md(m) == 0 && Rm(m) == 5 {
      Fetched32(hw, s);
      if Fetch32(hw, s).Ok? {
        var off := Fetch32(hw, s).v;
        WrapOf(off);
        Displaced(s.gpr, d, off, c.Seg(DS));
        EmptySum(s.gpr, d);
      }
    } else if Rm(m) == 4 {
      SibAgrees(hw, s, m, d);
      var r := SibFormula(hw, s, m, d);
      FetchedDisp(hw, r.s, Md(m), true);
      if r.Ok? && Disp(hw, r.s, Md(m), true).Ok? {
        SegFits(c, r.v.1);
        Displaced(s.gpr, r.v.0, Disp(hw, r.s, Md(m), true).v, c.Seg(r.v.1));
      }
    } else {
      FetchedDisp(hw, s, Md(m), true);
      if Disp(hw, s, Md(m), true).Ok? {
        var seg := if Rm(m) == EBP then SS else DS;
        Reshaped(d, Rm(m), NONE, 0);
        Displaced(s.gpr, d.(base := Rm(m)), Disp(hw, s, Md(m), true).v, c.Seg(seg));
        BaseSum(s.gpr, d.(base := Rm(m)));
      }
    }
  }

  lemma EmptySum(g: Gpr, d: Insn)
    requires d.base == NONE && d.index == NONE
    ensures SibSum(g, d) == d.disp
  {
  }

  lemma BaseSum(g: Gpr, d: Insn)
    requires d.base < 8 && d.index == NONE
    ensures SibSum(g, d) == g[d.base]
  {
    WrapOf(g[d.base]);
  }

  /** For every byte stream and register file, decoding ModRM and evaluating the formula is resolving it:
      same bytes consumed, same faults, same operand. */
  lemma ModRmAgrees<F, M>(hw: Hardware<F, M>, c: Context, s: S<F, M>, d: Insn)
    requires Encodable(c) && Clean(d, c)
    ensures var a, b := DecodeModRm(hw, c, s, d), ModRm(hw, c, s);
            if b.Fault? then a == b.PropagateFailure()
            else
              && a.Ok? && a.s == b.s && Kept(s, a.s) && Carries(d, a.v)
              && a.v.reg == b.v.0 && EaOperand(a.s.gpr, a.v) == b.v.1
              && (a.v.Kind() == MemOperand <==> b.v.1.Mem?)
  {
    hide Insn.Kind, Insn.Scale, Insn.Seg, Insn.SetKind, Insn.Asize32, Insn.Osize32, Insn.Wb, Insn.Npfx,
      Insn.SegOverride, Fetch8, Ea16, Ea32, Ea16Formula, Ea32Formula, EaOperand;
    Fetched8(hw, s);
    if Fetch8(hw, s).Ok? {
      var s1, m := Fetch8(hw, s).s, Fetch8(hw, s).v;
      var e := d.(reg := RegField(m));
      Renamed(d, RegField(m));
      if Md(m) == 3 {
        SetKindSays(e, RegOperand);
        Reshaped(e.SetKind(RegOperand), Rm(m), NONE, 0);
        RegisterOperand(s.gpr, e.SetKind(RegOperand).(base := Rm(m)));
      } else {
        SetKindSays(e, MemOperand);
        if c.asize32 {
          Ea32Agrees(hw, c, s1, m, e.SetKind(MemOperand));
        } else {
          Ea16Agrees(hw, c, s1, m, e.SetKind(MemOperand));
        }
      }
    }
  }

  lemma Renamed(d: Insn, r: reg)
    ensures var e := d.(reg := r); Carries(d, e) && e.Kind() == d.Kind() && e.Scale() == d.Scale()
  {
  }

  lemma RegisterOperand(g: Gpr, d: Insn)
    requires d.Kind() == RegOperand && d.base < 8
    ensures EaOperand(g, d) == R(d.base)
  {
    hide Insn.Kind;
  }
}
