/** The decoded-instruction cache: an entry is kept with where it was decoded, and a hit on the same bytes, wherever
    they stand now, is one step of the direct interpreter. */
module I386Cached {
  import opened I386Machine
  import opened I386Hot
  import opened I386Equivalence
  import opened I386Decoupled
  import opened I386Independence
  import opened I386Steps

  /** A cached instruction and the state its decode began in. */
  datatype Entry<F, M> = Entry(d: Insn, at: S<F, M>)

  /** What a hit promises by its key, its stamp and the limit check: the instruction's bytes and the default size
      are those it was decoded from. */
  predicate Current<F, M>(hw: Hardware<F, M>, e: Entry<F, M>, s: S<F, M>) {
    && hw.code32(e.at.mem) == hw.code32(s.mem)
    && SameCode(hw, e.at.mem, e.at.eip, s.mem, s.eip, e.d.len)
  }

  /** The full decode a hit stands for: prefixes, then the hot subset. */
  function Fresh<F, M>(hw: Hardware<F, M>, extensions: bool, s: S<F, M>): Option<Insn> {
    match Start(hw, extensions, s)
    case Fault(_, _) => None
    case Ok(s1, (opcode, p)) => FreshAfter(hw, s1, opcode, p)
  }

  function FreshAfter<F, M>(hw: Hardware<F, M>, s: S<F, M>, opcode: u8, p: Prefixes): Option<Insn> {
    if !p.Plain() then None
    else
      var o := TryDecode(hw, p.c, s, opcode, p.count).1;
      if o.Hot? then Some(o.d) else None
  }

  /** What a cached instruction installs: operand size, segment override and EIP past the instruction. The length
      count and the address size are left from the instruction before. */
  function Restored(c: Context, d: Insn): Context {
    c.(osize32 := d.Osize32(), segOverride := d.SegOverride())
  }

  function Begin<F, M>(s: S<F, M>, d: Insn): S<F, M> {
    s.(eip := Wrap(s.eip + d.len))
  }

  /** Execute a cached instruction. */
  function Hit<F, M>(hw: Hardware<F, M>, c: Context, s: S<F, M>, d: Insn): Out<F, M, nat> {
    var (s1, n) :- ExecDecoded(hw, Restored(c, d), Begin(s, d), d);
    Ok(s1, n + d.Npfx() as nat)
  }

  /** The entries of a cache are decodes of the bytes where they were made. */
  ghost predicate Genuine<F, M>(hw: Hardware<F, M>, extensions: bool, cache: map<nat, Entry<F, M>>) {
    forall i | i in cache :: Fresh(hw, extensions, cache[i].at) == Some(cache[i].d)
  }

  // --- Nothing executes the length count or the address size ---------------------------------------------------

  function Counted<F, M, T>(o: Out<F, M, T>, k: nat): Out<F, M, T> {
    match o
    case Ok(s, v) => Ok(s.(ilen := k), v)
    case Fault(s, e) => Fault(s.(ilen := k), e)
  }

  lemma OperandsCounted<F, M>(hw: Hardware<F, M>, s: S<F, M>, k: nat, w: Width, op: Operand, x: u32)
    ensures ReadOp(hw, s.(ilen := k), w, op) == Counted(ReadOp(hw, s, w, op), k)
    ensures WriteOp(hw, s.(ilen := k), w, op, x) == Counted(WriteOp(hw, s, w, op, x), k)
  {
    hide Trunc, Reg, SetReg;
  }

  lemma StackCounted<F, M>(hw: Hardware<F, M>, c: Context, b: Context, s: S<F, M>, k: nat, x: u32)
    requires b.osize32 == c.osize32
    ensures Push(hw, b, s.(ilen := k), x) == Counted(Push(hw, c, s, x), k)
    ensures Pop(hw, b, s.(ilen := k)) == Counted(Pop(hw, c, s), k)
    ensures SetIp(hw, b, s.(ilen := k), x) == Counted(SetIp(hw, c, s, x), k)
    ensures JumpRel(hw, b, s.(ilen := k), x) == Counted(JumpRel(hw, c, s, x), k)
  {
    hide Trunc, LowWord, Wrap;
  }

  lemma BranchesCounted<F, M>(hw: Hardware<F, M>, c: Context, b: Context, s: S<F, M>, k: nat, cc: nat, x: u32)
    requires b.osize32 == c.osize32
    ensures Jcc(hw, b, s.(ilen := k), cc, x) == Counted(Jcc(hw, c, s, cc, x), k)
    ensures JmpRel(hw, b, s.(ilen := k), x) == Counted(JmpRel(hw, c, s, x), k)
    ensures CallRel(hw, b, s.(ilen := k), x) == Counted(CallRel(hw, c, s, x), k)
    ensures Ret(hw, b, s.(ilen := k), x) == Counted(Ret(hw, c, s, x), k)
    ensures RetNear(hw, b, s.(ilen := k)) == Counted(RetNear(hw, c, s), k)
  {
    hide Push, Pop, SetIp, JumpRel, LowWord, Wrap;
    StackCounted(hw, c, b, s, k, x);
    StackCounted(hw, c, b, s, k, s.eip);
    StackCounted(hw, c, b, Push(hw, c, s, s.eip).s, k, x);
    if Pop(hw, c, s).Ok? {
      StackCounted(hw, c, b, Pop(hw, c, s).s, k, Pop(hw, c, s).v);
    }
  }

  lemma RegistersCounted<F, M>(hw: Hardware<F, M>, c: Context, b: Context, s: S<F, M>, k: nat, w: Width, i: reg,
                               x: u32, dec: bool)
    requires b.osize32 == c.osize32
    ensures PushReg(hw, b, s.(ilen := k), i) == Counted(PushReg(hw, c, s, i), k)
    ensures PopReg(hw, b, s.(ilen := k), i) == Counted(PopReg(hw, c, s, i), k)
    ensures PushValue(hw, b, s.(ilen := k), x) == Counted(PushValue(hw, c, s, x), k)
    ensures XchgAcc(s.(ilen := k), w, i) == Counted(XchgAcc(s, w, i), k)
    ensures IncDecReg(hw, s.(ilen := k), w, i, dec) == Counted(IncDecReg(hw, s, w, i, dec), k)
  {
    hide Push, Pop, SetReg, Reg;
    StackCounted(hw, c, b, s, k, x);
    StackCounted(hw, c, b, s, k, s.gpr[i]);
  }

  lemma GroupCounted<F, M>(hw: Hardware<F, M>, c: Context, b: Context, s: S<F, M>, k: nat, w: Width, sub: reg,
                           op: Operand)
    requires b.osize32 == c.osize32 && sub in {0, 1, 2, 4, 6}
    ensures Group(hw, b, s.(ilen := k), w, sub, op) == Counted(Group(hw, c, s, w, sub, op), k)
  {
    hide Push, SetIp, ReadOp, WriteOp;
    var r := ReadOp(hw, s, w, op);
    OperandsCounted(hw, s, k, w, op, 0);
    if r.Ok? {
      ReadKept(hw, s, s, w, op);
      var x := hw.incDec(sub == 1, w, s.flags, r.v);
      OperandsCounted(hw, s.(flags := x.1), k, w, op, x.0);
      StackCounted(hw, c, b, s, k, r.v);
      StackCounted(hw, c, b, s, k, s.eip);
      StackCounted(hw, c, b, Push(hw, c, s, s.eip).s, k, r.v);
    }
  }

  lemma AluCounted<F, M>(hw: Hardware<F, M>, s: S<F, M>, k: nat, w: Width, i: nat, wb: bool, op: Operand, d: reg,
                         x: u32)
    ensures AluInto(hw, s.(ilen := k), w, i, wb, op, x) == Counted(AluInto(hw, s, w, i, wb, op, x), k)
    ensures AluFrom(hw, s.(ilen := k), w, i, wb, d, op) == Counted(AluFrom(hw, s, w, i, wb, d, op), k)
    ensures AluAcc(hw, s.(ilen := k), w, i, wb, x) == Counted(AluAcc(hw, s, w, i, wb, x), k)
  {
    hide ReadOp, WriteOp, SetReg, Reg, Trunc;
    OperandsCounted(hw, s, k, w, op, 0);
    var r := ReadOp(hw, s, w, op);
    if r.Ok? {
      var y := hw.alu(i, w, s.flags, r.v, x);
      OperandsCounted(hw, s.(flags := y.1), k, w, op, y.0);
    }
  }

  lemma MovesCounted<F, M>(hw: Hardware<F, M>, s: S<F, M>, k: nat, d: Insn, from: Width, to: Width, signed: bool,
                           cm: nat, cr: nat, x: u32)
    ensures ExecLoad(hw, s.(ilen := k), d, from, to, signed, cm, cr) ==
            Counted(ExecLoad(hw, s, d, from, to, signed, cm, cr), k)
    ensures ExecStore(hw, s.(ilen := k), d, to, x, cm) == Counted(ExecStore(hw, s, d, to, x, cm), k)
    ensures ExecXchg(hw, s.(ilen := k), d, to) == Counted(ExecXchg(hw, s, d, to), k)
  {
    hide ReadOp, WriteOp, SetReg, Reg, EaOperand, Extended;
    var op := EaOperand(s.gpr, d);
    OperandsCounted(hw, s, k, from, op, 0);
    OperandsCounted(hw, s, k, to, op, x);
    OperandsCounted(hw, s, k, to, op, Reg(s.gpr, to, d.reg));
  }

  lemma ArithmeticCounted<F, M>(hw: Hardware<F, M>, c: Context, b: Context, s: S<F, M>, k: nat, d: Insn, w: Width,
                                immediate: bool)
    requires b.osize32 == c.osize32
    ensures ExecImul(hw, b, s.(ilen := k), d, immediate) == Counted(ExecImul(hw, c, s, d, immediate), k)
    ensures ExecCmov(hw, b, s.(ilen := k), d) == Counted(ExecCmov(hw, c, s, d), k)
    ensures ExecShift(hw, s.(ilen := k), d, w) == Counted(ExecShift(hw, s, d, w), k)
  {
    hide ReadOp, WriteOp, SetReg, Reg, EaOperand, Trunc;
    var op := EaOperand(s.gpr, d);
    OperandsCounted(hw, s, k, c.Size(false), op, 0);
    OperandsCounted(hw, s, k, w, op, 0);
    var r := ReadOp(hw, s, w, op);
    if r.Ok? {
      var n := if d.aux >= 0x80 then Reg(s.gpr, W8, ECX) else d.imm;
      var y := hw.shift(d.aux % 8, w, s.flags, r.v, n);
      OperandsCounted(hw, s.(flags := y.1), k, w, op, y.0);
    }
  }

  /** Executing reads the operand size of the context, and neither the length count nor the rest of it. */
  lemma ExecutionCounted<F, M>(hw: Hardware<F, M>, c: Context, b: Context, s: S<F, M>, k: nat, d: Insn)
    requires b.osize32 == c.osize32
    ensures ExecDecoded(hw, b, s.(ilen := k), d) == Counted(ExecDecoded(hw, c, s, d), k)
  {
    hide ExecDecoded;
    match d.op
    case AluRmR8 | AluRmRW | AluRRm8 | AluRRmW | AluAccImm8 | AluAccImmW | AluGrpImm8 | AluGrpImmW =>
      AluExecution(hw, c, b, s, k, d);
    case IncR | DecR | PushR | PopR | PushI | XchgA | IncDecRm8 | IncDecRmW | CallRm | JmpRm | PushRm | JccRel
       | JmpShort | CallNear | RetPlain | RetImm =>
      FlowExecution(hw, c, b, s, k, d);
    case MovRRm8 | MovRRmW | MovzxB | MovzxW | MovsxB | MovsxW | MovRegImm8 | MovRegImmW =>
      LoadExecution(hw, c, b, s, k, d);
    case LeaM => LeaExecution(hw, c, b, s, k, d);
    case MovRmR8 | MovRmRW | MovRmImm8 | MovRmImmW | SetccRm | XchgRm8 | XchgRmW =>
      StoreExecution(hw, c, b, s, k, d);
    case ShiftRm8 | ShiftRmW | ImulRRmW | ImulRmImm | CmovW =>
      ArithmeticExecution(hw, c, b, s, k, d);
  }

  lemma AluExecution<F, M>(hw: Hardware<F, M>, c: Context, b: Context, s: S<F, M>, k: nat, d: Insn)
    requires b.osize32 == c.osize32
    requires d.op in {AluRmR8, AluRmRW, AluRRm8, AluRRmW, AluAccImm8, AluAccImmW, AluGrpImm8, AluGrpImmW}
    ensures ExecDecoded(hw, b, s.(ilen := k), d) == Counted(ExecDecoded(hw, c, s, d), k)
  {
    hide AluInto, AluFrom, AluAcc, EaOperand, Reg, Trunc, Insn.Wb;
    var w := if d.op in {AluRmR8, AluRRm8, AluAccImm8, AluGrpImm8} then W8 else c.Size(false);
    var x := if d.op in {AluRmR8, AluRmRW} then Reg(s.gpr, w, d.reg)
             else if d.op in {AluAccImm8, AluAccImmW} then d.imm else Trunc(w, d.imm);
    AluCounted(hw, s, k, w, d.aux, d.Wb(), EaOperand(s.gpr, d), d.reg, x);
  }

  lemma FlowExecution<F, M>(hw: Hardware<F, M>, c: Context, b: Context, s: S<F, M>, k: nat, d: Insn)
    requires b.osize32 == c.osize32
    requires d.op in {IncR, DecR, PushR, PopR, PushI, XchgA, IncDecRm8, IncDecRmW, CallRm, JmpRm, PushRm, JccRel,
                      JmpShort, CallNear, RetPlain, RetImm}
    ensures ExecDecoded(hw, b, s.(ilen := k), d) == Counted(ExecDecoded(hw, c, s, d), k)
  {
    hide EaOperand, Group, PushReg, PopReg, PushValue, XchgAcc, IncDecReg, Jcc, JmpRel, CallRel, Ret, RetNear;
    var w := if d.op == IncDecRm8 then W8 else c.Size(false);
    var sub := match d.op case CallRm => 2 case JmpRm => 4 case PushRm => 6 case _ => if d.aux == 0 then 0 else 1;
    GroupCounted(hw, c, b, s, k, w, sub, EaOperand(s.gpr, d));
    RegistersCounted(hw, c, b, s, k, w, d.reg, d.imm, d.op == DecR);
    BranchesCounted(hw, c, b, s, k, d.aux, d.imm);
  }

  lemma SameSize(c: Context, b: Context)
    requires b.osize32 == c.osize32
    ensures b.Size(false) == c.Size(false)
  {
  }

  lemma LeaExecution<F, M>(hw: Hardware<F, M>, c: Context, b: Context, s: S<F, M>, k: nat, d: Insn)
    requires b.osize32 == c.osize32 && d.op == LeaM
    ensures ExecDecoded(hw, b, s.(ilen := k), d) == Counted(ExecDecoded(hw, c, s, d), k)
  {
    hide EaOperand, SetReg;
  }

  lemma LoadExecution<F, M>(hw: Hardware<F, M>, c: Context, b: Context, s: S<F, M>, k: nat, d: Insn)
    requires b.osize32 == c.osize32
    requires d.op in {MovRRm8, MovRRmW, MovzxB, MovzxW, MovsxB, MovsxW, MovRegImm8, MovRegImmW}
    ensures ExecDecoded(hw, b, s.(ilen := k), d) == Counted(ExecDecoded(hw, c, s, d), k)
  {
    hide EaOperand, ExecDecoded, ExecLoad, SetReg, Context.Size;
    Executes(hw, c, s, d);
    Executes(hw, b, s.(ilen := k), d);
    ExecutesExtended(hw, c, s, d);
    ExecutesExtended(hw, b, s.(ilen := k), d);
    ExecutesFlow(hw, c, s, d);
    ExecutesFlow(hw, b, s.(ilen := k), d);
    SameSize(c, b);
    var w := c.Size(false);
    var plain := d.op in {MovRRm8, MovRRmW};
    var from := if d.op in {MovRRm8, MovzxB, MovsxB} then W8 else if plain then w else W16;
    MovesCounted(hw, s, k, d, from, if d.op == MovRRm8 then W8 else w, d.op in {MovsxB, MovsxW},
                 if plain then 4 else 6, if plain then 2 else 3, 0);
  }

  lemma StoreExecution<F, M>(hw: Hardware<F, M>, c: Context, b: Context, s: S<F, M>, k: nat, d: Insn)
    requires b.osize32 == c.osize32
    requires d.op in {MovRmR8, MovRmRW, MovRmImm8, MovRmImmW, SetccRm, XchgRm8, XchgRmW}
    ensures ExecDecoded(hw, b, s.(ilen := k), d) == Counted(ExecDecoded(hw, c, s, d), k)
  {
    hide EaOperand, ExecDecoded, ExecStore, ExecXchg, Reg, Context.Size;
    Executes(hw, c, s, d);
    Executes(hw, b, s.(ilen := k), d);
    ExecutesMore(hw, c, s, d);
    ExecutesMore(hw, b, s.(ilen := k), d);
    ExecutesExtended(hw, c, s, d);
    ExecutesExtended(hw, b, s.(ilen := k), d);
    SameSize(c, b);
    var w := if d.op in {MovRmR8, MovRmImm8, SetccRm, XchgRm8} then W8 else c.Size(false);
    var x := if d.op in {MovRmR8, MovRmRW} then Reg(s.gpr, w, d.reg)
             else if d.op == SetccRm then (if hw.cond(d.aux, s.flags) then 1 else 0) else d.imm;
    MovesCounted(hw, s, k, d, w, w, false, if d.op == SetccRm then 4 else 2, 0, x);
  }

  lemma ArithmeticExecution<F, M>(hw: Hardware<F, M>, c: Context, b: Context, s: S<F, M>, k: nat, d: Insn)
    requires b.osize32 == c.osize32
    requires d.op in {ShiftRm8, ShiftRmW, ImulRRmW, ImulRmImm, CmovW}
    ensures ExecDecoded(hw, b, s.(ilen := k), d) == Counted(ExecDecoded(hw, c, s, d), k)
  {
    hide ExecDecoded, ExecImul, ExecCmov, ExecShift, Context.Size;
    ExecutesMore(hw, c, s, d);
    ExecutesMore(hw, b, s.(ilen := k), d);
    ExecutesExtended(hw, c, s, d);
    ExecutesExtended(hw, b, s.(ilen := k), d);
    SameSize(c, b);
    ArithmeticCounted(hw, c, b, s, k, d, if d.op == ShiftRm8 then W8 else c.Size(false), d.op == ImulRmImm);
  }

  // --- A hit is one step ------------------------------------------------------------------------------------------

  lemma {:induction false} ScanTracks<F, M>(hw: Hardware<F, M>, n: nat, s: S<F, M>, t: S<F, M>, p: Prefixes,
                                            code32: bool)
    ensures Tracks(hw, n, s, t, Scan(hw, s, p, code32), Scan(hw, t, p, code32))
    ensures Kept(s, Scan(hw, s, p, code32).s)
    decreases 15 - s.ilen
  {
    hide Fetch8, Twin, Origin;
    Fetches(hw, n, s, t);
    Fetched8(hw, s);
    Counts(hw, s);
    var o, q := Fetch8(hw, s), Fetch8(hw, t);
    if o.Ok? && IsPrefix(o.v) {
      ScanTracks(hw, n, o.s, q.s, WithPrefix(p, o.v, code32), code32);
    }
  }

  lemma Counts<F, M>(hw: Hardware<F, M>, s: S<F, M>)
    ensures Fetch8(hw, s).Ok? ==> s.ilen < Fetch8(hw, s).s.ilen <= 15
  {
  }

  /** A decode repeated over the same bytes finds the same instruction. */
  lemma FreshAgain<F, M>(hw: Hardware<F, M>, extensions: bool, e: Entry<F, M>, s: S<F, M>)
    requires Fresh(hw, extensions, e.at) == Some(e.d) && Current(hw, e, s)
    ensures Fresh(hw, extensions, s) == Some(e.d)
  {
    hide Scan, TryDecode, Encodable, At;
    var a, b := e.at.(ilen := 0), s.(ilen := 0);
    var p := NoPrefixes(hw.code32(s.mem), extensions);
    StartEncodable(hw, extensions, e.at);
    ScanTracks(hw, e.d.len, a, b, p, hw.code32(s.mem));
    var o, q := Start(hw, extensions, e.at), Start(hw, extensions, s);
    LengthGivesEip(hw, o.v.1.c, o.s, o.v.0, o.v.1.count);
    DecodeReadsBytesOnly(hw, e.d.len, o.v.1.c, o.s, q.s, o.v.0, o.v.1.count);
  }

  /** Outcomes alike once the instruction is over: the same cycles or fault, and no difference but the length count
      and what a fault rewinds. */
  ghost predicate Alike<F, M>(a: Out<F, M, nat>, b: Out<F, M, nat>) {
    if a.Ok? then b.Ok? && b.v == a.v && Boundary(b.s) == Boundary(a.s) else b.Fault? && b.e == a.e && Kept(a.s, b.s)
  }

  /** A cached instruction, run on the bytes it was decoded from, is one step of the direct interpreter, whatever
      context the instruction before it left. */
  lemma HitIsStep<F, M>(hw: Hardware<F, M>, extensions: bool, c: Context, e: Entry<F, M>, s: S<F, M>)
    requires Fresh(hw, extensions, e.at) == Some(e.d) && Current(hw, e, s)
    ensures Alike(Hit(hw, c, s, e.d), OneStep(hw, extensions, s, false))
  {
    hide Fresh, Current;
    FreshAgain(hw, extensions, e, s);
    FreshIsStep(hw, extensions, c, s, e.d);
    OneStepAgrees(hw, extensions, s);
  }

  lemma FreshIsStep<F, M>(hw: Hardware<F, M>, extensions: bool, c: Context, s: S<F, M>, d: Insn)
    requires Fresh(hw, extensions, s) == Some(d)
    ensures Alike(Hit(hw, c, s, d), OneStep(hw, extensions, s, true))
  {
    hide Scan, TryDecode, ExecDecoded, Encodable, Dispatch, Dispatch0F;
    var t := s.(ilen := 0);
    var code32 := hw.code32(s.mem);
    ScanTracks(hw, 0, t, t, NoPrefixes(code32, extensions), code32);
    StartEncodable(hw, extensions, s);
    var o := Start(hw, extensions, s);
    var p := o.v.1;
    LengthGivesEip(hw, p.c, o.s, o.v.0, p.count);
    HotCarriesContext(hw, p.c, o.s, o.v.0, p.count);
    CountReadBack(hw, p.c, o.s, o.v.0, p.count);
    ExecutionCounted(hw, p.c, Restored(c, d), TryDecode(hw, p.c, o.s, o.v.0, p.count).0, s.ilen, d);
  }

  lemma CountReadBack<F, M>(hw: Hardware<F, M>, c: Context, s: S<F, M>, opcode: u8, n: nat)
    ensures TryDecode(hw, c, s, opcode, n).1.Hot? ==> n <= 7 && PrefixBits(n) as nat == n
  {
    hide DecodeOp;
  }
}
