/** Mirrors in use: which steps of the plain machine fetch or store through an address that the write
    stamps cannot vouch for. In a memory that is a multiple of 64 MiB there is none. */
module ArmMirrors {
  import opened ArmAlu
  import opened ArmRegisters
  import opened ArmDecode
  import opened ArmMachine
  import opened ArmMemory
  import opened ArmCache

  /** Some word of a block store, from register `i` up, is outside the first copy of its window. */
  predicate ListStrays(list: RegList, i: nat, a: u32, size: nat)
    requires i <= 16
    decreases 16 - i
  {
    if i == 16 then false
    else if list[i] then !Direct(a, size) || ListStrays(list, i + 1, Wrap(a + 4), size)
    else ListStrays(list, i + 1, a, size)
  }

  /** A transfer stores outside the first copy of its window. */
  predicate StoreStrays(v: RegView, h: Here, n: Insn, size: nat) {
    match n
    case Str(bytewise, pre, up, _, _, rn, off) =>
      var a := XferAddr(v, h, pre, up, rn, off).0;
      !Direct(if bytewise then a else AlignWord(a), size)
    case StrMisc(pre, up, _, _, rn, off) => !Direct(AlignHalf(XferAddr(v, h, pre, up, rn, off).0), size)
    case Stm(pre, up, _, _, hollow, base, list) =>
      ListStrays(list, 0, BlockAddr(RegOp(v, h, base), pre, up, hollow, list).0, size)
    case Swp(bytewise, _, base, _) =>
      var a := RegOp12(v, h, base);
      !Direct(if bytewise then a else AlignWord(a), size)
    case _ => false
  }

  /** A word store that stamps another slot than its own instruction's. */
  predicate StoresElsewhere(v: RegView, h: Here, n: Insn) {
    n.Str? && !n.bytewise &&
    StampSlot(AlignWord(XferAddr(v, h, n.pre, n.up, n.rn, n.off).0)) != StampSlot(h.start)
  }

  /** The next instruction is fetched, or stores, outside the first copy of its window. */
  predicate OneStrays(m: Machine) {
    var h := Next(m.v);
    var d := Fetch(m.ram, h);
    || !Direct(h.start, |m.ram|)
    || (CondPass(m.v.cpsr, d.cond) && StoreStrays(m.v.Put(15, Wrap(h.start + d.len)), h, d.insn, |m.ram|))
  }

  predicate StepStrays(m: Machine) {
    !InterruptPending(m) && !m.halted && OneStrays(m)
  }
}
