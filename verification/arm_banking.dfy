/** Register banking over whole histories: what any mode reads is the last value written to the physical
    register behind it (ARM Architecture Reference Manual DDI 0100, sections A2.3 and A2.4). */
module ArmBanking {
  import opened ArmAlu
  import opened ArmRegisters
  import opened ArmMachine

  /** Operations on the register file. */
  datatype RegOp =
    | Switch(to: Mode)
    | Msr(value: u32, fields: Fields)
    | Put(i: reg, x: u32)
    | PutUser(i: reg, x: u32)
    | PutOf(mode: Mode, i: reg, x: u32)

  function Apply(v: RegView, op: RegOp): RegView {
    match op
    case Switch(to) => v.(cpsr := v.cpsr.(mode := to.Bits()))
    case Msr(value, fields) => v.(cpsr := MsrCpsr(v.cpsr, value, fields))
    case Put(i, x) => v.Put(i, x)
    case PutUser(i, x) => v.PutUser(i, x)
    case PutOf(mode, i, x) => v.(phys := v.phys[Phys(mode, i) := x])
  }

  function ApplyAll(v: RegView, ops: seq<RegOp>): RegView
    decreases |ops|
  {
    if ops == [] then v else Apply(ApplyAll(v, ops[..|ops| - 1]), ops[|ops| - 1])
  }

  /** Whether an operation writes physical register `p` in a given mode: status moves never do. */
  predicate WritesNow(mode: Mode, op: RegOp, p: nat) {
    match op
    case Switch(_) => false
    case Msr(_, _) => false
    case Put(i, _) => p == Phys(mode, i)
    case PutUser(i, _) => p == Phys(Usr, i)
    case PutOf(m, i, _) => p == Phys(m, i)
  }

  /** Whether operation `j` of a history writes `p`. */
  predicate Writes(v: RegView, ops: seq<RegOp>, j: nat, p: nat)
    requires j < |ops|
  {
    WritesNow(ApplyAll(v, ops[..j]).cpsr.Mode(), ops[j], p)
  }

  lemma OneWrite(v: RegView, op: RegOp, p: nat)
    requires p < PHYSICAL
    ensures Apply(v, op).phys[p] == if WritesNow(v.cpsr.Mode(), op, p) then op.x else v.phys[p]
  {
    hide Phys, MsrCpsr, Psr.Mode;
  }

  /** A register that nothing writes from operation `from` on keeps its value, whatever the mode switches. */
  lemma {:induction false} Untouched(v: RegView, ops: seq<RegOp>, p: nat, from: nat)
    requires p < PHYSICAL && from <= |ops|
    requires forall j: nat :: from <= j < |ops| ==> !Writes(v, ops, j, p)
    ensures ApplyAll(v, ops).phys[p] == ApplyAll(v, ops[..from]).phys[p]
    decreases |ops|
  {
    hide Phys, Apply, WritesNow;
    if from == |ops| {
      assert ops[..from] == ops;
    } else {
      var n := |ops| - 1;
      var front := ops[..n];
      forall j: nat | from <= j < n
        ensures !Writes(v, front, j, p)
      {
        assert front[..j] == ops[..j] && !Writes(v, ops, j, p);
      }
      Untouched(v, front, p, from);
      assert front[..from] == ops[..from] && !Writes(v, ops, n, p);
      OneWrite(ApplyAll(v, front), ops[n], p);
    }
  }

  /** The last write to a physical register is what it holds. */
  lemma LastWriteWins(v: RegView, ops: seq<RegOp>, p: nat, j: nat)
    requires p < PHYSICAL && j < |ops| && Writes(v, ops, j, p)
    requires forall k: nat :: j < k < |ops| ==> !Writes(v, ops, k, p)
    ensures ApplyAll(v, ops).phys[p] == ops[j].x
  {
    hide Phys, Apply, WritesNow;
    Untouched(v, ops, p, j + 1);
    assert ops[..j + 1][..j] == ops[..j];
    OneWrite(ApplyAll(v, ops[..j]), ops[j], p);
  }

  /** The banked file serves any history exactly as the flat store does, in every mode's view. */
  method Replay(r: Registers, ops: seq<RegOp>)
    modifies r
    ensures r.View() == ApplyAll(old(r.View()), ops)
    ensures forall m: Mode, i: reg :: r.RegOf(m, i) == ApplyAll(old(r.View()), ops).phys[Phys(m, i)]
    ensures forall i: reg :: r.UserReg(i) == r.RegOf(Usr, i)
  {
    hide Registers.Flat, Phys, MsrCpsr, Psr.Mode, Registers.RegOf, Registers.UserReg;
    ghost var v := r.View();
    for n := 0 to |ops|
      invariant r.View() == ApplyAll(v, ops[..n])
    {
      match ops[n] {
        case Switch(to) => r.SetMode(to);
        case Msr(value, fields) => r.MoveCpsr(MsrCpsr(r.cpsr, value, fields));
        case Put(i, x) => r.Put(i, x);
        case PutUser(i, x) => r.SetUserReg(i, x);
        case PutOf(mode, i, x) => r.SetRegOf(mode, i, x);
      }
      assert ops[..n + 1][..n] == ops[..n];
    }
    assert ops[..|ops|] == ops;
  }
}
