/** A history that tells the processor from the plain machine: below 64 MiB, an instruction that overwrites itself
    through a mirror of the memory is executed again from the cache. */
module ArmStale {
  import opened ArmAlu
  import opened ArmRegisters
  import opened ArmDecode
  import opened ArmMachine
  import opened ArmMemory
  import opened ArmCache
  import opened ArmMirrors
  import opened ArmCpu

  /** STR r1, [r2], and a word whose condition never holds. */
  const STORE: u32 := 0xE582_1000
  const NEVER: u32 := 0xF000_0000

  const STORED: Decoded := Decoded(14, 4, Str(false, true, true, false, 1, 2, OffImm(0)))

  lemma StoreWord()
    ensures DecodeArm(STORE) == STORED
  {
    hide BitList, Ror32, AluOpOf, DecodeRegister, FieldsOf;
    var w := STORE;
    assert w / 0x200_0000 % 8 == 2;
    assert w / 0x10_0000 % 2 == 0 && w / 0x20_0000 % 2 == 0 && w / 0x40_0000 % 2 == 0;
    assert w / 0x80_0000 % 2 == 1 && w / 0x100_0000 % 2 == 1;
  }

  /** The machine at power-on. */
  ghost function Started(ram: Ram): Machine {
    Machine(PowerOn(), ram, 0, false, false, false, false, false, None, Here(0, false))
  }

  /** The host points r2 at the mirror of address 0 and steps the instruction there twice. */
  function History(size: u32): seq<Event> {
    [Poke(Svc, 1, NEVER), Poke(Svc, 2, size), StepOnce, Poke(Svc, 15, 0), StepOnce]
  }

  /** The store executed at address 0. */
  lemma StoreRuns(m: Machine, size: u32)
    requires m.v.cpsr.Mode() == Svc && !m.v.cpsr.t && m.v.Get(15) == 0 && m.v.Get(1) == NEVER && m.v.Get(2) == size
    requires size % 4 == 0
    ensures ExecAs(m, STORED) ==
            (m.(v := m.v.Put(15, 4), ram := Write32(m.ram, size, NEVER), here := Here(0, false)), 2)
  {
    hide Write32, XferAddr, StoreValue, AlignWord, Phys, Psr.Mode, ExecStr;
    assert Next(m.v) == Here(0, false) by { WordAligned(0); }
    SvcApart();
    StoreMoves(m.v.Put(15, 4), m.ram, size);
  }

  lemma SvcApart()
    ensures Phys(Svc, 1) == 1 && Phys(Svc, 2) == 2 && Phys(Svc, 15) == 15
  {
  }

  lemma WordAligned(a: u32)
    requires a % 4 == 0
    ensures AlignWord(a) == a
  {
  }

  lemma StoreMoves(v: RegView, ram: Ram, size: u32)
    requires v.Get(1) == NEVER && v.Get(2) == size && size % 4 == 0
    ensures ExecStr(v, ram, Here(0, false), false, true, true, false, 1, 2, OffImm(0)) ==
            Moved(v, Write32(ram, size, NEVER), 2)
  {
    hide Write32, Phys, Psr.Mode, AlignWord, RegView.Get;
    WordAligned(size);
  }

  /** A word whose condition never holds passes in one cycle. */
  lemma NeverRuns(m: Machine, d: Decoded)
    requires d.cond == 15
    ensures ExecAs(m, d).1 == 1 && ExecAs(m, d).0.cycles == m.cycles
  {
    hide ExecInsn, Next, RegView.Put, Wrap;
  }

  /** After the two register writes. */
  ghost function Armed(ram: Ram, size: u32): Machine {
    After(After(Started(ram), Poke(Svc, 1, NEVER)), Poke(Svc, 2, size))
  }

  lemma ArmedState(ram: Ram, size: u32)
    ensures var m := Armed(ram, size);
            && m.v.cpsr.Mode() == Svc && !m.v.cpsr.t && m.v.Get(15) == 0 && m.v.Get(1) == NEVER && m.v.Get(2) == size
            && Next(m.v) == Here(0, false) && m == Started(ram).(v := m.v)
  {
    hide Phys, AlignWord, PsrOf, Psr.Mode;
    SvcApart();
    WordAligned(0);
    PowerOnStatus();
  }

  lemma PowerOnStatus()
    ensures PsrOf(0xD3).Mode() == Svc && !PsrOf(0xD3).t
  {
  }

  /** After the store, and the register write that jumps back to it. */
  ghost function Rearmed(ram: Ram, size: u32): Machine {
    var m := Armed(ram, size);
    Machine(m.v.Put(15, 0), Write32(ram, size, NEVER), 2, false, false, false, false, false, None, Here(0, false))
  }

  lemma Jump(m: Machine, ram: Ram)
    requires m.v.cpsr.Mode() == Svc
    ensures After(m.(v := m.v.Put(15, 4), ram := ram), Poke(Svc, 15, 0)) == m.(v := m.v.Put(15, 0), ram := ram)
  {
    SvcApart();
    assert m.v.phys[15 := 4][15 := 0] == m.v.phys[15 := 0];
  }

  lemma RearmedState(ram: Ram, size: u32)
    ensures var m := Rearmed(ram, size);
            && m.v.cpsr.Mode() == Svc && !m.v.cpsr.t && m.v.Get(15) == 0 && m.v.Get(1) == NEVER && m.v.Get(2) == size
            && Next(m.v) == Here(0, false)
  {
    hide AlignWord, Write32, Phys, Armed;
    SvcApart();
    ArmedState(ram, size);
    WordAligned(0);
  }

  lemma FiveEvents(m: Machine, size: u32)
    ensures AfterAll(m, History(size)) ==
            After(After(After(After(After(m, Poke(Svc, 1, NEVER)), Poke(Svc, 2, size)), StepOnce), Poke(Svc, 15, 0)),
                  StepOnce)
  {
    hide AfterAll, After;
    var a, b, d := Poke(Svc, 1, NEVER), Poke(Svc, 2, size), Poke(Svc, 15, 0);
    NoEvents(m);
    OneMore(m, [], a);
    OneMore(m, [a], b);
    OneMore(m, [a, b], StepOnce);
    OneMore(m, [a, b, StepOnce], d);
    OneMore(m, [a, b, StepOnce, d], StepOnce);
    assert [] + [a] == [a] && [a] + [b] == [a, b] && [a, b] + [StepOnce] == [a, b, StepOnce];
    assert [a, b, StepOnce] + [d] == [a, b, StepOnce, d];
    assert [a, b, StepOnce, d] + [StepOnce] == History(size);
  }

  lemma NoEvents(m: Machine)
    ensures AfterAll(m, []) == m
  {
  }

  lemma OneMore(m: Machine, events: seq<Event>, e: Event)
    ensures AfterAll(m, events + [e]) == After(AfterAll(m, events), e)
  {
    hide After;
    assert (events + [e])[..|events|] == events;
  }

  /** The plain machine executes the new word the second time round: three cycles in all. */
  lemma PlainRun(ram: Ram, size: u32)
    requires RamSize(|ram|) && size == |ram| && |ram| % 0x400_0000 != 0 && Read32(ram, 0) == STORE
    ensures AfterAll(Started(ram), History(size)).cycles == 3
  {
    hide Read32, Write32, DecodeArm, RamSize, Next, ExecAs, RegView.Put, RegView.Get, Cell, After;
    SmallSize(|ram|);
    SizeAtLeast(|ram|);
    MirrorOfZero(|ram|);
    AlignedSize(|ram|);
    FiveEvents(Started(ram), size);
    RearmedState(ram, size);
    FirstStep(ram, size);
    WordReadBack(ram, size, NEVER, 0);
    SecondStep(Rearmed(ram, size));
  }

  /** The store, then the jump back. */
  lemma FirstStep(ram: Ram, size: u32)
    requires Read32(ram, 0) == STORE && size % 4 == 0
    ensures After(After(Armed(ram, size), StepOnce), Poke(Svc, 15, 0)) == Rearmed(ram, size)
  {
    hide Read32, Write32, DecodeArm, Next, ExecAs, RegView.Put, RegView.Get, Armed;
    StoreWord();
    ArmedState(ram, size);
    var m := Armed(ram, size);
    StoreRuns(m, size);
    Jump(m.(cycles := 2), Write32(ram, size, NEVER));
  }

  lemma SecondStep(m: Machine)
    requires Next(m.v) == Here(0, false) && Read32(m.ram, 0) == NEVER
    requires !m.halted && !m.irq && !m.fiq
    ensures After(m, StepOnce).cycles == m.cycles + 1
  {
    hide Read32, DecodeGroup, Next, ExecAs;
    NeverRuns(m, DecodeArm(NEVER));
  }

  /** A step of the processor that works with the store keeps it in the cache. */
  method StepStore(cpu: Cpu, mem: LinearMemory, size: u32)
    requires cpu.Valid(mem) && size % 4 == 0 && StampSlot(size) != StampSlot(0)
    requires cpu.Seen(mem, Here(0, false)) == STORED
    requires var m := cpu.State(mem);
             && !m.halted && !m.irq && !m.fiq && Next(m.v) == Here(0, false)
             && m.v.cpsr.Mode() == Svc && !m.v.cpsr.t && m.v.Get(15) == 0 && m.v.Get(1) == NEVER && m.v.Get(2) == size
    modifies cpu, cpu.regs, cpu.icache`clock, cpu.icache.entries, cpu.icache.stamps, mem.ram
    ensures cpu.Valid(mem) && cpu.Seen(mem, Here(0, false)) == STORED
    ensures var m := old(cpu.State(mem));
            cpu.State(mem) == m.(v := m.v.Put(15, 4), ram := Write32(m.ram, size, NEVER), here := Here(0, false),
                                 cycles := m.cycles + 2)
  {
    hide Write32, Next, ExecAs, RegView.Put, RegView.Get, Registers.Flat, Cpu.Valid, ICache.Hits, Cpu.Seen,
      ArmMachine.Step, StepStrays, AlignWord, XferAddr, StampSlot;
    ghost var m := cpu.State(mem);
    StoreRuns(m, size);
    StoreAway(m, size);
    var _ := cpu.Step(mem);
  }

  lemma StoreAway(m: Machine, size: u32)
    requires m.v.cpsr.Mode() == Svc && m.v.Get(2) == size && size % 4 == 0 && StampSlot(size) != StampSlot(0)
    ensures StoresElsewhere(m.v.Put(15, Wrap(0 + STORED.len)), Here(0, false), STORED.insn)
  {
    hide StampSlot, AlignWord, Phys;
    SvcApart();
    WordAligned(size);
  }

  /** A processor at power-on whose host has set the two registers. */
  method Arm(mem: LinearMemory, size: u32) returns (cpu: Cpu)
    requires mem.Valid() && Read32(mem.Contents(), 0) == STORE
    ensures cpu.Valid(mem) && cpu.State(mem) == Armed(mem.Contents(), size) && cpu.Seen(mem, Here(0, false)) == STORED
    ensures fresh(cpu) && fresh(cpu.regs) && fresh(cpu.icache) && fresh(cpu.icache.entries) && fresh(cpu.icache.stamps)
  {
    hide Read32, DecodeArm, RamSize, Registers.Flat, Cpu.Valid, ICache.Hits, Cpu.Seen, StampSlot, PowerOn, ViewAfter;
    cpu := new Cpu(mem);
    cpu.Arrange(mem, Poke(Svc, 1, NEVER));
    cpu.Arrange(mem, Poke(Svc, 2, size));
    cpu.SeenIsFetch(mem, Here(0, false));
    StoreWord();
  }

  /** The store, and the host's jump back to it. */
  method StoreAndReturn(cpu: Cpu, mem: LinearMemory, ghost ram: Ram, size: u32)
    requires cpu.Valid(mem) && size % 4 == 0 && StampSlot(size) != StampSlot(0)
    requires cpu.State(mem) == Armed(ram, size) && cpu.Seen(mem, Here(0, false)) == STORED
    modifies cpu, cpu.regs, cpu.icache`clock, cpu.icache.entries, cpu.icache.stamps, mem.ram
    ensures cpu.Valid(mem) && cpu.State(mem) == Rearmed(ram, size) && cpu.Seen(mem, Here(0, false)) == STORED
  {
    hide Write32, Next, RegView.Get, Registers.Flat, Cpu.Valid, ICache.Hits, Cpu.Seen, StampSlot, Armed, Psr.Mode;
    ArmedState(ram, size);
    StepStore(cpu, mem, size);
    cpu.Arrange(mem, Poke(Svc, 15, 0));
    Jump(Armed(ram, size).(cycles := 2), Write32(ram, size, NEVER));
  }

  /** The processor executes the cached store again: four cycles where the plain machine takes three. */
  method StaleRun(mem: LinearMemory, size: u32) returns (cpu: Cpu)
    requires mem.Valid() && size == mem.ram.Length && size % 0x400_0000 != 0 && Read32(mem.Contents(), 0) == STORE
    modifies mem.ram
    ensures cpu.Valid(mem) && cpu.State(mem).cycles == 4
    ensures AfterAll(Started(old(mem.Contents())), History(size)).cycles == 3
  {
    hide Read32, Write32, DecodeArm, RamSize, Next, RegView.Put, RegView.Get, Cell, Registers.Flat, Cpu.Valid,
      ICache.Hits, Cpu.Seen, AfterAll, StampSlot, Armed, History, Psr.Mode;
    ghost var ram := mem.Contents();
    SmallSize(size);
    MirrorOfZero(size);
    AlignedSize(size);
    PlainRun(ram, size);
    RearmedState(ram, size);
    cpu := Arm(mem, size);
    StoreAndReturn(cpu, mem, ram, size);
    StepStore(cpu, mem, size);
  }
}
