/** Whole runs of a process over its address space: what no sequence of requests can break. */
module ProcessRuns {
  import opened PhysMemory
  import opened PageViews
  import opened Regions
  import opened AddressSpaces

  /** One request to the address space; `Fault` is a page fault the process layer is offered. */
  datatype Op =
    | MapImage(start: u64, len: u64, prot: nat, kind: VmaKind)
    | Mmap(len: u64, prot: nat)
    | MmapFixed(start: u64, len: u64, prot: nat)
    | Brk(to: u64)
    | Protect(start: u64, len: u64, prot: nat)
    | Unmap(start: u64, len: u64)
    | Fault(lin: u64)

  // --- Bookkeeping of the arena, without any memory ----------------------------------------------

  /** What a request claims when the arena has grown to `top`. */
  function ClaimOf(op: Op, top: nat): seq<Claim> {
    match op
    case Mmap(len, _) => if top + PageUp(len) > STACK_LIMIT then [] else [Claim(false, top, top + PageUp(len))]
    case MmapFixed(start, len, _) => [Claim(true, PageDown(start), RangeEnd(start, len))]
    case _ => []
  }

  function TopAfter(op: Op, top: nat): nat {
    match op
    case Mmap(len, _) => if top + PageUp(len) > STACK_LIMIT then top else top + PageUp(len)
    case MmapFixed(start, len, _) => if RangeEnd(start, len) > top then RangeEnd(start, len) else top
    case _ => top
  }

  function Claims(ops: seq<Op>, top: nat): seq<Claim>
    decreases |ops|
  {
    if ops == [] then []
    else Claims(ops[..|ops| - 1], top) + ClaimOf(ops[|ops| - 1], TopAfterAll(ops[..|ops| - 1], top))
  }

  function TopAfterAll(ops: seq<Op>, top: nat): nat
    decreases |ops|
  {
    if ops == [] then top else TopAfter(ops[|ops| - 1], TopAfterAll(ops[..|ops| - 1], top))
  }

  lemma StepApart(op: Op, top: nat)
    requires top % 4096 == 0 && MMAP_BASE <= top <= U64_MAX - 4095
    ensures var top' := TopAfter(op, top);
            && top' % 4096 == 0 && top <= top' <= U64_MAX - 4095
            && forall c :: c in ClaimOf(op, top) ==>
                 && c.end <= top'
                 && (!c.fixed ==> c.start == top && c.start <= c.end <= STACK_LIMIT && c.end % 4096 == 0)
    ensures |ClaimOf(op, top)| <= 1
  {
    match op
    case Mmap(len, _) => {
      ArenaEnd(top, len);
    }
    case MmapFixed(start, len, _) => {
      RangeAligned(start, len);
    }
    case _ => {}
  }

  /** Over any run, nothing claimed earlier overlaps what `mmap` hands out later. */
  lemma {:induction false} ClaimsNeverOverlap(ops: seq<Op>, top: nat)
    requires top % 4096 == 0 && MMAP_BASE <= top <= U64_MAX - 4095
    ensures ClaimsApart(Claims(ops, top)) && ClaimsBelow(Claims(ops, top), TopAfterAll(ops, top))
    ensures var end := TopAfterAll(ops, top); end % 4096 == 0 && top <= end <= U64_MAX - 4095
    decreases |ops|
  {
    hide ClaimOf, TopAfter;
    if ops != [] {
      var front := ops[..|ops| - 1];
      ClaimsNeverOverlap(front, top);
      StepApart(ops[|ops| - 1], TopAfterAll(front, top));
    }
  }

  // --- Requests that leave the arena to mmap -----------------------------------------------------------

  /** An image or stack is mapped outside what is left of the arena, and a stack below 2^48. All other requests
      qualify as they are. */
  predicate KeepsOut(op: Op, top: nat) {
    op.MapImage? ==>
      && ClearOfArena(PageDown(op.start), RangeEnd(op.start, op.len), top)
      && (op.kind == Stack ==> PageDown(op.start) <= 0x1_0000_0000_0000)
  }

  predicate AllKeepOut(ops: seq<Op>, top: nat)
    decreases |ops|
  {
    if ops == [] then true
    else
      var front := ops[..|ops| - 1];
      AllKeepOut(front, top) && KeepsOut(ops[|ops| - 1], TopAfterAll(front, top))
  }

  /** The part of the arena that `mmap` has not reached is empty, and stays within reach of nothing else. */
  ghost predicate Orderly(a: AddressSpace, mem: PhysMem)
    reads a, mem
  {
    a.ArenaClear(mem) && StacksLow(a.vmas)
  }

  lemma LowAfterMap(vmas: seq<Vma>, v: Vma)
    requires StacksLow(vmas) && (v.kind == Stack ==> v.start <= 0x1_0000_0000_0000)
    ensures StacksLow(vmas + [v])
  {
  }

  lemma LowAfterUnmap(vmas: seq<Vma>, s: nat, e: nat)
    requires StacksLow(vmas)
    ensures StacksLow(Outside(vmas, s, e))
  {
  }

  lemma LowAfterGrowth(vmas: seq<Vma>, i: nat, bottom: nat)
    requires StacksLow(vmas) && i < |vmas| && bottom <= vmas[i].start
    ensures vmas[i].kind == Stack ==> vmas[i].start <= 0x1_0000_0000_0000
    ensures StacksLow(vmas[i := vmas[i].(start := bottom)])
  {
  }

  /** What the process layer does with a page fault: grow the stack if it is the next thing down, and then
      the faulting address is mapped and inside the stack region. */
  method HandleFault(a: AddressSpace, mem: PhysMem, lin: u64) returns (handled: bool)
    requires a.Valid(mem)
    modifies a`nextPhys, a`own, a`vmas, mem
    ensures a.Valid(mem) && (old(a.AllCovered(mem)) ==> a.AllCovered(mem))
    ensures old(Orderly(a, mem)) ==> Orderly(a, mem)
    ensures handled == old(a.IsStackGrowth(lin)).Some?
    ensures !handled ==> a.vmas == old(a.vmas) && mem.frames == old(mem.frames)
    ensures handled ==>
              var i := FirstStack(a.vmas);
              && i == FirstStack(old(a.vmas)) < |a.vmas| && a.vmas[i].kind == Stack
              && STACK_LIMIT <= a.vmas[i].start <= lin < a.vmas[i].end
              && (a.Fits() ==> PageOf(lin) in a.Pages(mem))
  {
    hide AddressSpace.Valid, AddressSpace.AllCovered, AddressSpace.Pages, FirstStack, Grown, ArenaFree, StacksLow,
      Outside, PageDown, RangeEnd;
    var bottom := a.IsStackGrowth(lin);
    if bottom == None {
      return false;
    }
    ValidRegions(a, mem);
    ghost var vmas, i := a.vmas, FirstStack(a.vmas);
    WholeStart(bottom.value);
    SamePageBase(lin, bottom.value);
    StackAbove(vmas, i, lin, bottom.value);
    if StacksLow(vmas) {
      LowAfterGrowth(vmas, i, bottom.value);
    }
    a.GrowStack(mem, bottom.value);
    return true;
  }

  lemma SamePageBase(lin: nat, base: nat)
    requires base % 4096 == 0 && base <= lin < base + 4096
    ensures PageOf(lin) == PageOf(base)
  {
    assert lin / 4096 == base / 4096;
  }

  lemma StackAbove(vmas: seq<Vma>, i: nat, lin: nat, base: nat)
    requires Tidy(vmas) && i < |vmas| && lin < vmas[i].start && base % 4096 == 0 && base <= lin < base + 4096
    ensures base + 4096 <= vmas[i].start <= vmas[i].end
  {
    assert Aligned(vmas[i]);
  }

  /** Serve one request. */
  method Serve(a: AddressSpace, mem: PhysMem, op: Op)
    requires a.Valid(mem) && a.AllCovered(mem) && a.Fits()
    modifies a, mem
    ensures a.Valid(mem) && a.AllCovered(mem)
    ensures a.mmapTop == TopAfter(op, old(a.mmapTop))
    ensures a.claims == old(a.claims) + ClaimOf(op, old(a.mmapTop))
    ensures old(Orderly(a, mem)) && KeepsOut(op, old(a.mmapTop)) ==> Orderly(a, mem)
  {
    hide AddressSpace.Valid, AddressSpace.AllCovered, AddressSpace.ArenaClear, PageUp, RangeEnd, PageDown, PagesIn,
      Grown,
      MapProgress, Remapped, ProtectPages, Outside, FirstStack, Writes, StacksLow, ClearOfArena;
    ghost var low, vmas := StacksLow(a.vmas), a.vmas;
    match op {
      case MapImage(start, len, prot, kind) =>
        a.Map(mem, start, len, prot, kind);
        if low && KeepsOut(op, a.mmapTop) {
          LowAfterMap(vmas, Vma(PageDown(start), RangeEnd(start, len), prot, kind));
        }
      case Mmap(len, prot) =>
        var addr := a.Mmap(mem, len, prot);
        if low && addr != 0 {
          LowAfterMap(vmas, Vma(addr, a.mmapTop, prot, Mapped));
        }
      case MmapFixed(start, len, prot) =>
        a.MmapFixed(mem, start, len, prot);
        if low {
          LowAfterMap(vmas, Vma(PageDown(start), RangeEnd(start, len), prot, Mapped));
        }
      case Brk(to) =>
        ghost var prior := PageUp(a.brk);
        var _ := a.SetBrk(mem, to);
        if low {
          LowAfterMap(vmas, Vma(prior, PageUp(to), 3, Heap));
        }
      case Protect(start, len, prot) =>
        a.Protect(mem, start, len, prot);
      case Unmap(start, len) =>
        a.Unmap(mem, start, len);
        if low {
          LowAfterUnmap(vmas, PageDown(start), RangeEnd(start, len));
        }
      case Fault(lin) =>
        var _ := HandleFault(a, mem, lin);
    }
    assert vmas + [] == vmas && old(a.claims) + [] == old(a.claims);
  }

  /** Serve requests in order while the frame cursor fits the page tables: every present page stays covered by
      a region, the claims are those of the bookkeeping and never overlap a later `mmap`, and while images keep
      out of the arena every range that `mmap` will return is empty. */
  method Run(a: AddressSpace, mem: PhysMem, ops: seq<Op>) returns (ran: nat)
    requires a.Valid(mem) && a.AllCovered(mem)
    modifies a, mem
    ensures ran <= |ops| && (ran < |ops| ==> !a.Fits())
    ensures a.Valid(mem) && a.AllCovered(mem)
    ensures a.mmapTop == TopAfterAll(ops[..ran], old(a.mmapTop))
    ensures a.claims == old(a.claims) + Claims(ops[..ran], old(a.mmapTop)) && ClaimsApart(a.claims)
    ensures old(Orderly(a, mem)) && AllKeepOut(ops[..ran], old(a.mmapTop)) ==> Orderly(a, mem)
  {
    hide AddressSpace.Valid, AddressSpace.AllCovered, ClaimsApart, ClaimOf, TopAfter, AddressSpace.Fits, Orderly,
      KeepsOut;
    ran := 0;
    ghost var top, claims := a.mmapTop, a.claims;
    ValidClaims(a, mem);
    assert claims + [] == claims;
    while ran < |ops| && a.Fits()
      invariant ran <= |ops| && a.Valid(mem) && a.AllCovered(mem)
      invariant a.mmapTop == TopAfterAll(ops[..ran], top)
      invariant a.claims == claims + Claims(ops[..ran], top)
      invariant old(Orderly(a, mem)) && AllKeepOut(ops[..ran], top) ==> Orderly(a, mem)
      decreases |ops| - ran
    {
      assert ops[..ran + 1][..ran] == ops[..ran];
      Serve(a, mem, ops[ran]);
      ran := ran + 1;
    }
    ValidClaims(a, mem);
  }

  lemma ValidClaims(a: AddressSpace, mem: PhysMem)
    requires a.Valid(mem)
    ensures ClaimsApart(a.claims)
  {
    hide ClaimsApart;
  }

  lemma ValidRegions(a: AddressSpace, mem: PhysMem)
    requires a.Valid(mem)
    ensures Tidy(a.vmas)
  {
    hide Tidy;
  }
}
