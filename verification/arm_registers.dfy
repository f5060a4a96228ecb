/** Processor modes, status registers and the banked register file of the ARM core, with the flat
    store of 31 physical registers that the banking stands for. */
module ArmRegisters {
  import opened ArmAlu

  // --- Modes --------------------------------------------------------------------------------

  datatype Mode = Usr | Fiq | Irq | Svc | Abt | Und | Sys {
    predicate HasSpsr() {
      this != Usr && this != Sys
    }

    function Bits(): bits5 {
      match this
      case Usr => 0x10
      case Fiq => 0x11
      case Irq => 0x12
      case Svc => 0x13
      case Abt => 0x17
      case Und => 0x1B
      case Sys => 0x1F
    }

    /** The SPSR slot, and the r13-r14 bank, of an exception mode. */
    function Bank(): (b: nat)
      requires HasSpsr()
      ensures b < 5 && (b == 0 <==> this == Fiq)
    {
      match this
      case Fiq => 0
      case Svc => 1
      case Abt => 2
      case Irq => 3
      case Und => 4
    }
  }

  type bits4 = x: int | 0 <= x < 16
  type bits5 = x: int | 0 <= x < 32
  type bits8 = x: int | 0 <= x < 256

  /** The mode a mode field selects; reserved encodings use the User/System bank. */
  function BankMode(mode: bits5): Mode {
    if mode == 0x11 then Fiq
    else if mode == 0x12 then Irq
    else if mode == 0x13 then Svc
    else if mode == 0x17 then Abt
    else if mode == 0x1B then Und
    else if mode == 0x1F then Sys
    else Usr
  }

  /** Two modes share all of r0 to r14. */
  predicate SameBank(a: Mode, b: Mode) {
    a == b || (!a.HasSpsr() && !b.HasSpsr())
  }

  // --- Status registers -----------------------------------------------------------------------

  /** All 32 bits of a program status register, field by field. */
  datatype Psr = Psr(n: bool, z: bool, c: bool, v: bool, reserved: bits4, s: bits8, x: bits8,
                     i: bool, f: bool, t: bool, mode: bits5) {
    function Mode(): Mode {
      BankMode(mode)
    }

    /** Everything but User mode proper. */
    predicate Privileged() {
      mode != 0x10
    }

    /** The top byte: flags and reserved bits. */
    function Flags(): bits8 {
      (if n then 128 else 0) + (if z then 64 else 0) + (if c then 32 else 0) + (if v then 16 else 0) + reserved
    }

    /** The bottom byte: interrupt masks, Thumb bit and mode. */
    function Control(): bits8 {
      (if i then 128 else 0) + (if f then 64 else 0) + (if t then 32 else 0) + mode
    }

    function Bits(): u32 {
      0x100_0000 * Flags() + 0x1_0000 * s + 0x100 * x + Control()
    }

    function WithFlags(b: bits8): Psr {
      this.(n := b / 128 == 1, z := b / 64 % 2 == 1, c := b / 32 % 2 == 1, v := b / 16 % 2 == 1, reserved := b % 16)
    }

    function WithControl(b: bits8): Psr {
      this.(i := b / 128 == 1, f := b / 64 % 2 == 1, t := b / 32 % 2 == 1, mode := b % 32)
    }

    /** Overwrite the bytes selected by a field mask with those of `value`. */
    function Write(value: u32, mask: Fields): Psr {
      var a := if mask.c then WithControl(value % 0x100) else this;
      var b := if mask.x then a.(x := value / 0x100 % 0x100) else a;
      var d := if mask.s then b.(s := value / 0x1_0000 % 0x100) else b;
      if mask.f then d.WithFlags(value / 0x100_0000) else d
    }

    function SetNz(value: u32): Psr {
      this.(n := Negative(value), z := value == 0)
    }
  }

  /** The c, x, s and f field bits of an MSR. */
  datatype Fields = Fields(c: bool, x: bool, s: bool, f: bool)

  const ALL_FIELDS: Fields := Fields(true, true, true, true)

  function PsrOf(bits: u32): Psr {
    Psr(false, false, false, false, 0, 0, 0, false, false, false, 0).Write(bits, ALL_FIELDS)
  }

  /** A status register is exactly its 32 bits. */
  lemma PsrRoundTrip(p: Psr, bits: u32)
    ensures PsrOf(p.Bits()) == p
    ensures PsrOf(bits).Bits() == bits
  {
    hide *;
    PsrBytes(p);
    BytesPsr(bits);
  }

  lemma PsrBytes(p: Psr)
    ensures PsrOf(p.Bits()) == p
  {
    hide Psr.Bits, Psr.Flags, Psr.Control, Psr.WithFlags, Psr.WithControl;
    var w := p.Bits();
    BitsAre(p);
    Join(p.Flags(), p.s, p.x, p.Control());
    var blank := Psr(false, false, false, false, 0, 0, 0, false, false, false, 0);
    var q := blank.WithControl(w % 0x100).(x := p.x, s := p.s);
    FieldBytes(p, blank);
    FieldBytes(p, q);
  }

  lemma BytesPsr(w: u32)
    ensures PsrOf(w).Bits() == w
  {
    hide Psr.Flags, Psr.Control, Psr.WithFlags, Psr.WithControl;
    var blank := Psr(false, false, false, false, 0, 0, 0, false, false, false, 0);
    var q := blank.WithControl(w % 0x100).(x := w / 0x100 % 0x100, s := w / 0x1_0000 % 0x100);
    ByteFields(blank, w % 0x100);
    ByteFields(q, w / 0x100_0000);
    ControlKept(blank.WithControl(w % 0x100), w / 0x100 % 0x100, w / 0x1_0000 % 0x100, w / 0x100_0000);
    Split(w);
  }

  lemma BitsAre(p: Psr)
    ensures p.Bits() == 0x100_0000 * p.Flags() + 0x1_0000 * p.s + 0x100 * p.x + p.Control()
  {
  }

  lemma Join(b3: bits8, b2: bits8, b1: bits8, b0: bits8)
    ensures var w := 0x100_0000 * b3 + 0x1_0000 * b2 + 0x100 * b1 + b0;
            w / 0x100_0000 == b3 && w / 0x1_0000 % 0x100 == b2 && w / 0x100 % 0x100 == b1 && w % 0x100 == b0
  {
    var w := 0x100_0000 * b3 + 0x1_0000 * b2 + 0x100 * b1 + b0;
    assert w / 0x100 == 0x1_0000 * b3 + 0x100 * b2 + b1;
    assert w / 0x1_0000 == 0x100 * b3 + b2;
  }

  lemma Split(w: u32)
    ensures w == 0x100_0000 * (w / 0x100_0000) + 0x1_0000 * (w / 0x1_0000 % 0x100) + 0x100 * (w / 0x100 % 0x100) +
                 w % 0x100
  {
    var h := w / 0x100;
    assert w / 0x1_0000 == h / 0x100;
    assert w / 0x100_0000 == h / 0x1_0000 == h / 0x100 / 0x100;
  }

  lemma ByteFields(p: Psr, b: bits8)
    ensures p.WithFlags(b).Flags() == b && p.WithControl(b).Control() == b
  {
    TopBitsOf(b);
  }

  lemma TopBitsOf(b: bits8)
    ensures b == 128 * (b / 128) + 64 * (b / 64 % 2) + 32 * (b / 32 % 2) + b % 32
    ensures b % 32 == 16 * (b / 16 % 2) + b % 16
  {
    var h := b / 16;
    assert b / 32 == h / 2 && b / 64 == h / 2 / 2 && b / 128 == h / 2 / 2 / 2;
  }

  lemma ControlKept(p: Psr, x: bits8, s: bits8, b: bits8)
    ensures p.(x := x, s := s).WithFlags(b).Control() == p.Control()
    ensures p.(x := x, s := s).WithFlags(b).x == x && p.(x := x, s := s).WithFlags(b).s == s
  {
  }

  lemma FieldBytes(p: Psr, q: Psr)
    ensures q.WithFlags(p.Flags()) == q.(n := p.n, z := p.z, c := p.c, v := p.v, reserved := p.reserved)
    ensures q.WithControl(p.Control()) == q.(i := p.i, f := p.f, t := p.t, mode := p.mode)
  {
    TopBits(p.n, p.z, p.c, p.v, p.reserved);
    TopThree(p.i, p.f, p.t, p.mode);
  }

  lemma TopBits(n: bool, z: bool, c: bool, v: bool, low: bits4)
    ensures var b := (if n then 128 else 0) + (if z then 64 else 0) + (if c then 32 else 0) +
                    (if v then 16 else 0) + low;
            (b / 128 == 1 <==> n) && (b / 64 % 2 == 1 <==> z) && (b / 32 % 2 == 1 <==> c) &&
            (b / 16 % 2 == 1 <==> v) && b % 16 == low
  {
  }

  lemma TopThree(i: bool, f: bool, t: bool, low: bits5)
    ensures var b := (if i then 128 else 0) + (if f then 64 else 0) + (if t then 32 else 0) + low;
            (b / 128 == 1 <==> i) && (b / 64 % 2 == 1 <==> f) && (b / 32 % 2 == 1 <==> t) && b % 32 == low
  {
  }

  // --- Physical registers -----------------------------------------------------------------------

  /** Physical registers: r0 to r15 of User, r8 to r14 of FIQ, then r13 and r14 of each other
      exception mode (ARM Architecture Reference Manual DDI 0100, section A2.3). */
  const PHYSICAL: nat := 31

  type reg = i: int | 0 <= i < 16

  /** The physical register that `mode` sees as register `i`. */
  function Phys(mode: Mode, i: reg): (p: nat)
    ensures p < PHYSICAL
  {
    if i < 8 || i == 15 then i
    else if mode == Fiq then 8 + i
    else if i < 13 || !mode.HasSpsr() then i
    else 8 + 2 * mode.Bank() + i
  }

  /** Distinct registers of one mode are distinct; across modes, registers coincide exactly when the
      modes share them. */
  lemma PhysShared(a: Mode, i: reg, b: Mode, j: reg)
    ensures Phys(a, i) == Phys(b, j) <==>
            i == j && (i < 8 || i == 15 || SameBank(a, b) || (i < 13 && (a == Fiq) == (b == Fiq)))
  {
  }

  type PhysRegs = s: seq<u32> | |s| == PHYSICAL witness seq(PHYSICAL, _ => 0)
  type SpsrBank = s: seq<Psr> | |s| == 5
    witness seq(5, _ => Psr(false, false, false, false, 0, 0, 0, false, false, false, 0))

  /** What the rest of the processor sees of the register file. */
  datatype RegView = RegView(phys: PhysRegs, cpsr: Psr, spsr: SpsrBank) {
    function Get(i: reg): u32 {
      phys[Phys(cpsr.Mode(), i)]
    }

    function Put(i: reg, v: u32): RegView {
      this.(phys := phys[Phys(cpsr.Mode(), i) := v])
    }

    function UserReg(i: reg): u32 {
      phys[Phys(Usr, i)]
    }

    function PutUser(i: reg, v: u32): RegView {
      this.(phys := phys[Phys(Usr, i) := v])
    }
  }

  type Window = s: seq<u32> | |s| == 16 witness seq(16, _ => 0)
  type Bank7 = s: seq<u32> | |s| == 7 witness seq(7, _ => 0)
  type ExcBank = s: seq<(u32, u32)> | |s| == 4 witness seq(4, _ => (0, 0))

  // --- The banked register file --------------------------------------------------------------------

  /** The value of physical register `p` given the current window and the inactive banks. */
  function PhysAt(gpr: Window, usr: Bank7, fiq: Bank7, exc: ExcBank, cur: Mode, p: nat): u32
    requires p < PHYSICAL
  {
    if p < 8 || p == 15 then gpr[p]
    else if p < 13 then (if cur == Fiq then usr[p - 8] else gpr[p])
    else if p < 15 then (if cur.HasSpsr() then usr[p - 8] else gpr[p])
    else if p < 23 then (if cur == Fiq then gpr[p - 8] else fiq[p - 16])
    else
      var b := (p - 21) / 2;
      if cur.HasSpsr() && cur.Bank() == b then gpr[p - 8 - 2 * b]
      else if p % 2 == 1 then exc[b - 1].0
      else exc[b - 1].1
  }

  /** A write through the window is a write to the one physical register behind it. */
  lemma PutWindow(gpr: Window, usr: Bank7, fiq: Bank7, exc: ExcBank, cur: Mode, i: reg, v: u32)
    ensures forall p :: 0 <= p < PHYSICAL ==>
              PhysAt(gpr[i := v], usr, fiq, exc, cur, p) ==
              if p == Phys(cur, i) then v else PhysAt(gpr, usr, fiq, exc, cur, p)
  {
    forall p | 0 <= p < PHYSICAL
      ensures PhysAt(gpr[i := v], usr, fiq, exc, cur, p) ==
              if p == Phys(cur, i) then v else PhysAt(gpr, usr, fiq, exc, cur, p)
    {
    }
  }

  /** So is a write to the bank of a mode that is not looking through the window at that register. */
  lemma PutBank(gpr: Window, usr: Bank7, fiq: Bank7, exc: ExcBank, cur: Mode, mode: Mode, i: reg,
                v: u32)
    requires 8 <= i < 15
    requires !SameBank(cur, mode) && (i < 13 ==> (cur == Fiq) != (mode == Fiq))
    ensures var usr' := if mode != Fiq && (i < 13 || !mode.HasSpsr()) then usr[i - 8 := v] else usr;
            var fiq' := if mode == Fiq then fiq[i - 8 := v] else fiq;
            var exc' := if mode.HasSpsr() && mode != Fiq && i >= 13 then
                          var old' := exc[mode.Bank() - 1];
                          exc[mode.Bank() - 1 := if i == 13 then (v, old'.1) else (old'.0, v)]
                        else exc;
            forall p :: 0 <= p < PHYSICAL ==>
              PhysAt(gpr, usr', fiq', exc', cur, p) ==
              if p == Phys(mode, i) then v else PhysAt(gpr, usr, fiq, exc, cur, p)
  {
    var usr' := if mode != Fiq && (i < 13 || !mode.HasSpsr()) then usr[i - 8 := v] else usr;
    var fiq' := if mode == Fiq then fiq[i - 8 := v] else fiq;
    var exc' := if mode.HasSpsr() && mode != Fiq && i >= 13 then
                  var old' := exc[mode.Bank() - 1];
                  exc[mode.Bank() - 1 := if i == 13 then (v, old'.1) else (old'.0, v)]
                else exc;
    forall p | 0 <= p < PHYSICAL
      ensures PhysAt(gpr, usr', fiq', exc', cur, p) ==
              if p == Phys(mode, i) then v else PhysAt(gpr, usr, fiq, exc, cur, p)
    {
    }
  }

  /** The storage of a banked register outside any window. */
  function Home(usr: Bank7, fiq: Bank7, exc: ExcBank, p: nat): u32
    requires 8 <= p < PHYSICAL && p != 15
  {
    if p < 15 then usr[p - 8]
    else if p < 23 then fiq[p - 16]
    else if p % 2 == 1 then exc[(p - 21) / 2 - 1].0
    else exc[(p - 21) / 2 - 1].1
  }

  /** Every banked register is in its own storage. */
  ghost predicate Homed(flat: PhysRegs, usr: Bank7, fiq: Bank7, exc: ExcBank)
  {
    forall p :: 8 <= p < PHYSICAL && p != 15 ==> Home(usr, fiq, exc, p) == flat[p]
  }

  function SpilledUsr(gpr: Window, usr: Bank7, cur: Mode): (s: Bank7)
  {
    if cur == Fiq then usr else gpr[8..13] + (if cur.HasSpsr() then usr[5..] else gpr[13..15])
  }

  function SpilledExc(gpr: Window, exc: ExcBank, cur: Mode): (s: ExcBank)
  {
    if cur == Fiq || !cur.HasSpsr() then exc else exc[cur.Bank() - 1 := (gpr[13], gpr[14])]
  }

  /** Spilling puts every banked register home and changes no physical register. */
  lemma SpillKeeps(gpr: Window, usr: Bank7, fiq: Bank7, exc: ExcBank, cur: Mode, flat: PhysRegs)
    requires forall p :: 0 <= p < PHYSICAL ==> PhysAt(gpr, usr, fiq, exc, cur, p) == flat[p]
    ensures var u, f, e := SpilledUsr(gpr, usr, cur), if cur == Fiq then gpr[8..15] else fiq, SpilledExc(gpr, exc, cur);
            && Homed(flat, u, f, e)
            && forall p :: 0 <= p < PHYSICAL ==> PhysAt(gpr, u, f, e, cur, p) == flat[p]
  {
    var u, f, e := SpilledUsr(gpr, usr, cur), if cur == Fiq then gpr[8..15] else fiq, SpilledExc(gpr, exc, cur);
    forall p | 0 <= p < PHYSICAL
      ensures 8 <= p && p != 15 ==> Home(u, f, e, p) == flat[p]
      ensures PhysAt(gpr, u, f, e, cur, p) == flat[p]
    {
      assert PhysAt(gpr, usr, fiq, exc, cur, p) == flat[p];
    }
  }

  /** The window of `to`, loaded from the banks. */
  function Loaded(gpr: Window, usr: Bank7, fiq: Bank7, exc: ExcBank, to: Mode): (g: Window)
  {
    if to == Fiq then gpr[..8] + fiq + gpr[15..]
    else
      var two := if to.HasSpsr() then exc[to.Bank() - 1] else (usr[5], usr[6]);
      gpr[..8] + usr[..5] + [two.0, two.1] + gpr[15..]
  }

  /** Loading a window from homed banks changes no physical register. */
  lemma LoadKeeps(flat: PhysRegs, gpr: Window, usr: Bank7, fiq: Bank7, exc: ExcBank, cur: Mode,
                  to: Mode)
    requires Homed(flat, usr, fiq, exc)
    requires forall p :: 0 <= p < PHYSICAL ==> PhysAt(gpr, usr, fiq, exc, cur, p) == flat[p]
    ensures forall p :: 0 <= p < PHYSICAL ==> PhysAt(Loaded(gpr, usr, fiq, exc, to), usr, fiq, exc, to, p) == flat[p]
  {
    hide Loaded;
    var g := Loaded(gpr, usr, fiq, exc, to);
    forall p | 0 <= p < PHYSICAL
      ensures PhysAt(g, usr, fiq, exc, to, p) == flat[p]
    {
      assert PhysAt(gpr, usr, fiq, exc, cur, p) == flat[p];
      LoadedOne(gpr, usr, fiq, exc, to, p);
    }
  }

  lemma LoadedOne(gpr: Window, usr: Bank7, fiq: Bank7, exc: ExcBank, to: Mode, p: nat)
    requires p < PHYSICAL
    ensures PhysAt(Loaded(gpr, usr, fiq, exc, to), usr, fiq, exc, to, p) ==
            if p < 8 || p == 15 then gpr[p] else Home(usr, fiq, exc, p)
  {
  }

  /** r0 to r15 of the current mode, and the banked copies of everyone else's. */
  class Registers {
    var gpr: Window
    var cpsr: Psr
    var spsr: SpsrBank
    var usrBank: Bank7
    var fiqBank: Bank7
    var excBank: ExcBank

    /** The physical registers. */
    ghost function Flat(): PhysRegs
      reads this
    {
      seq(PHYSICAL, p requires 0 <= p < PHYSICAL reads this =>
        PhysAt(gpr, usrBank, fiqBank, excBank, cpsr.Mode(), p))
    }

    ghost function View(): RegView
      reads this
    {
      RegView(Flat(), cpsr, spsr)
    }

    /** Power-on: Supervisor mode, ARM state, interrupts off, everything else zero. */
    constructor ()
      ensures View() == PowerOn()
    {
      gpr, usrBank, fiqBank := seq(16, _ => 0), seq(7, _ => 0), seq(7, _ => 0);
      excBank := seq(4, _ => (0, 0));
      cpsr := PsrOf(0xD3);
      spsr := seq(5, _ => PsrOf(0x13));
    }

    method Reset()
      modifies this
      ensures View() == PowerOn()
    {
      hide PsrOf;
      gpr, usrBank, fiqBank := seq(16, _ => 0), seq(7, _ => 0), seq(7, _ => 0);
      excBank := seq(4, _ => (0, 0));
      cpsr := PsrOf(0xD3);
      spsr := seq(5, _ => PsrOf(0x13));
    }

    /** The current mode's view of register `i` is the one physical register behind it. */
    lemma Window(i: reg)
      ensures gpr[i] == View().Get(i)
    {
    }

    /** Assign `gpr[i]`. */
    method Put(i: reg, v: u32)
      modifies this`gpr
      ensures View() == old(View()).Put(i, v)
    {
      hide PhysAt;
      PutWindow(gpr, usrBank, fiqBank, excBank, cpsr.Mode(), i, v);
      gpr := gpr[i := v];
      assert Flat() == old(Flat())[Phys(cpsr.Mode(), i) := v];
    }

    /** Write the current mode's banked registers back to their own storage. */
    method Spill()
      modifies this`usrBank, this`fiqBank, this`excBank
      ensures View() == old(View()) && Homed(Flat(), usrBank, fiqBank, excBank)
    {
      hide PhysAt, Homed;
      var cur := cpsr.Mode();
      ghost var flat := Flat();
      SpillKeeps(gpr, usrBank, fiqBank, excBank, cur, flat);
      if cur == Fiq {
        fiqBank := gpr[8..15];
      } else {
        usrBank := gpr[8..13] + usrBank[5..];
        if cur.HasSpsr() {
          excBank := excBank[cur.Bank() - 1 := (gpr[13], gpr[14])];
        } else {
          usrBank := usrBank[..5] + gpr[13..15];
        }
      }
      assert Flat() == flat;
    }

    /** Load the banked registers of `to` into the window. */
    method Load(to: Mode)
      modifies this`gpr
      ensures gpr == Loaded(old(gpr), usrBank, fiqBank, excBank, to)
    {
      if to == Fiq {
        gpr := gpr[..8] + fiqBank + gpr[15..];
      } else {
        var two := if to.HasSpsr() then excBank[to.Bank() - 1] else (usrBank[5], usrBank[6]);
        gpr := gpr[..8] + usrBank[..5] + [two.0, two.1] + gpr[15..];
      }
    }

    /** Switch modes: spill the banked registers of the current one, load those of `to`. */
    method SetMode(to: Mode)
      modifies this
      ensures View() == old(View()).(cpsr := old(cpsr).(mode := to.Bits()))
    {
      hide PhysAt, Homed, Loaded;
      var cur := cpsr.Mode();
      ghost var flat := Flat();
      if cur != to {
        Spill();
        LoadKeeps(flat, gpr, usrBank, fiqBank, excBank, cur, to);
        Load(to);
      }
      cpsr := cpsr.(mode := to.Bits());
      assert cpsr.Mode() == to;
      assert Flat() == flat;
    }

    /** Store a raw status image, with the register window its mode selects already loaded. */
    method SetCpsr(p: Psr)
      requires SameBank(cpsr.Mode(), p.Mode())
      modifies this`cpsr
      ensures View() == old(View()).(cpsr := p)
    {
      cpsr := p;
      assert Flat() == old(Flat());
    }

    /** Replace the CPSR, loading the register window of the mode it selects. */
    method MoveCpsr(p: Psr)
      modifies this
      ensures View() == old(View()).(cpsr := p)
    {
      hide Flat, BankMode;
      SetMode(p.Mode());
      ModeBits(p.Mode());
      SetCpsr(p);
    }

    /** The SPSR of the current mode; User and System read the CPSR. */
    function SpsrBits(): (b: u32)
      reads this
      ensures b == SpsrOfView(View()).Bits()
    {
      var m := cpsr.Mode();
      if m.HasSpsr() then spsr[m.Bank()].Bits() else cpsr.Bits()
    }

    method SetSpsr(value: u32, mask: Fields)
      modifies this`spsr
      ensures View() == WithSpsr(old(View()), SpsrOfView(old(View())).Write(value, mask))
    {
      var m := cpsr.Mode();
      if m.HasSpsr() {
        spsr := spsr[m.Bank() := spsr[m.Bank()].Write(value, mask)];
      }
    }

    method SpsrStore(p: Psr)
      modifies this`spsr
      ensures View() == WithSpsr(old(View()), p)
    {
      var m := cpsr.Mode();
      if m.HasSpsr() {
        spsr := spsr[m.Bank() := p];
      }
    }

    /** Register `i` of the user bank, whatever the mode. */
    function UserReg(i: reg): (v: u32)
      reads this
      ensures v == View().UserReg(i)
    {
      var cur := cpsr.Mode();
      if i < 8 || i == 15 then gpr[i]
      else if i < 13 then (if cur != Fiq then gpr[i] else usrBank[i - 8])
      else if !cur.HasSpsr() then gpr[i]
      else usrBank[i - 8]
    }

    method SetUserReg(i: reg, v: u32)
      modifies this`gpr, this`usrBank, this`fiqBank, this`excBank
      ensures View() == old(View()).PutUser(i, v)
    {
      hide PhysAt;
      var cur := cpsr.Mode();
      PhysShared(cur, i, Usr, i);
      if i < 8 || i == 15 || (i < 13 && cur != Fiq) || (i >= 13 && !cur.HasSpsr()) {
        Put(i, v);
      } else {
        SetBanked(Usr, i, v);
      }
    }

    /** Register `i` as `mode` sees it, whatever the current mode. */
    function RegOf(mode: Mode, i: reg): (v: u32)
      reads this
      ensures v == Flat()[Phys(mode, i)]
    {
      var cur := cpsr.Mode();
      if SameBank(cur, mode) || i < 8 || i == 15 then gpr[i]
      else
        var fiqBanked := (cur == Fiq) != (mode == Fiq);
        if !fiqBanked && i < 13 then gpr[i]
        else if mode == Fiq then fiqBank[i - 8]
        else if i < 13 then usrBank[i - 8]
        else if mode.HasSpsr() then (if i == 13 then excBank[mode.Bank() - 1].0 else excBank[mode.Bank() - 1].1)
        else usrBank[i - 8]
    }

    method SetRegOf(mode: Mode, i: reg, v: u32)
      modifies this`gpr, this`usrBank, this`fiqBank, this`excBank
      ensures View() == old(View()).(phys := old(Flat())[Phys(mode, i) := v])
    {
      hide PhysAt;
      var cur := cpsr.Mode();
      PhysShared(cur, i, mode, i);
      var fiqBanked := (cur == Fiq) != (mode == Fiq);
      if SameBank(cur, mode) || i < 8 || i == 15 || (!fiqBanked && i < 13) {
        Put(i, v);
      } else {
        SetBanked(mode, i, v);
      }
    }

    /** Write a register the current window does not hold, in the storage of `mode`. */
    method SetBanked(mode: Mode, i: reg, v: u32)
      requires 8 <= i < 15 && !SameBank(cpsr.Mode(), mode)
      requires i < 13 ==> (cpsr.Mode() == Fiq) != (mode == Fiq)
      modifies this`usrBank, this`fiqBank, this`excBank
      ensures View() == old(View()).(phys := old(Flat())[Phys(mode, i) := v])
    {
      hide PhysAt, Phys;
      PutBank(gpr, usrBank, fiqBank, excBank, cpsr.Mode(), mode, i, v);
      if mode == Fiq {
        fiqBank := fiqBank[i - 8 := v];
      } else if i < 13 {
        usrBank := usrBank[i - 8 := v];
      } else if mode.HasSpsr() {
        var b := mode.Bank() - 1;
        excBank := excBank[b := if i == 13 then (v, excBank[b].1) else (excBank[b].0, v)];
      } else {
        usrBank := usrBank[i - 8 := v];
      }
      assert Flat() == old(Flat())[Phys(mode, i) := v];
    }
  }

  lemma ModeBits(m: Mode)
    ensures BankMode(m.Bits()) == m
  {
  }

  /** The state a reset leaves. */
  ghost function PowerOn(): RegView {
    RegView(seq(PHYSICAL, _ => 0), PsrOf(0xD3), seq(5, _ => PsrOf(0x13)))
  }

  function SpsrOfView(v: RegView): Psr {
    if v.cpsr.Mode().HasSpsr() then v.spsr[v.cpsr.Mode().Bank()] else v.cpsr
  }

  /** Replace the current mode's SPSR, where it has one. */
  function WithSpsr(v: RegView, p: Psr): RegView {
    if v.cpsr.Mode().HasSpsr() then v.(spsr := v.spsr[v.cpsr.Mode().Bank() := p]) else v
  }
}
