/** The region list of a process: what it must cover, and how it changes. */
module Regions {
  import opened PageViews

  datatype VmaKind = Image | Stack | Heap | Mapped

  datatype Vma = Vma(start: nat, end: nat, prot: nat, kind: VmaKind)

  const MMAP_BASE: nat := 0x7F00_0000_0000
  const STACK_TOP: nat := 0x7FFF_FFFF_F000
  const STACK_LIMIT: nat := 0x7FFF_FF7F_F000

  /** The regions not wholly inside `[s, e)`. */
  function Outside(vmas: seq<Vma>, s: nat, e: nat): (kept: seq<Vma>)
    ensures forall v :: v in kept <==> v in vmas && !(v.start >= s && v.end <= e)
  {
    if vmas == [] then []
    else if vmas[0].start >= s && vmas[0].end <= e then Outside(vmas[1..], s, e)
    else [vmas[0]] + Outside(vmas[1..], s, e)
  }

  /** The position of the first stack region, `|vmas|` if there is none. */
  function FirstStack(vmas: seq<Vma>): (i: nat)
    ensures i <= |vmas| && (i < |vmas| ==> vmas[i].kind == Stack)
    ensures forall j :: 0 <= j < i ==> vmas[j].kind != Stack
  {
    if vmas == [] then 0 else if vmas[0].kind == Stack then 0 else 1 + FirstStack(vmas[1..])
  }

  ghost predicate InRegion(v: Vma, p: nat) {
    p in PagesIn(v.start / 4096, v.end / 4096)
  }

  /** Every present page lies in some region. */
  ghost predicate Covered(view: map<nat, Mapping>, vmas: seq<Vma>) {
    forall p :: p in view ==> exists v :: v in vmas && InRegion(v, p)
  }

  predicate Aligned(v: Vma) {
    v.start % 4096 == 0 && v.end % 4096 == 0 && v.start <= v.end <= U64_MAX - 4095
  }

  ghost predicate Tidy(vmas: seq<Vma>) {
    forall v :: v in vmas ==> Aligned(v)
  }

  lemma PagesWithin(lo: nat, hi: nat, lo': nat, hi': nat)
    requires lo' <= lo && hi <= hi'
    ensures PagesIn(lo, hi) <= PagesIn(lo', hi')
  {
    forall p | p in PagesIn(lo, hi)
      ensures p in PagesIn(lo', hi')
    {
      var k: nat :| lo <= k < hi && p == k % 0x10_0000_0000;
      assert lo' <= k < hi';
    }
  }

  /** Pages mapped inside a region that joins the list are covered. */
  lemma CoveredByMap(v0: map<nat, Mapping>, v1: map<nat, Mapping>, vmas: seq<Vma>, v: Vma,
                     lo: nat, hi: nat)
    requires Covered(v0, vmas) && v1.Keys == v0.Keys + PagesIn(lo, hi)
    requires v.start / 4096 <= lo && hi <= v.end / 4096
    ensures Covered(v1, vmas + [v])
  {
    hide PagesIn;
    PagesWithin(lo, hi, v.start / 4096, v.end / 4096);
    forall p | p in v1
      ensures exists u :: u in vmas + [v] && InRegion(u, p)
    {
      if p in v0 {
        var u :| u in vmas && InRegion(u, p);
        assert u in vmas + [v];
      } else {
        assert v in vmas + [v] && InRegion(v, p);
      }
    }
  }

  /** Dropping the regions wholly inside an unmapped range leaves what is still present covered. */
  lemma CoveredByUnmap(v0: map<nat, Mapping>, vmas: seq<Vma>, s: nat, e: nat)
    requires Covered(v0, vmas)
    ensures Covered(v0 - PagesIn(s / 4096, e / 4096), Outside(vmas, s, e))
  {
    hide PagesIn, Outside;
    var v1 := v0 - PagesIn(s / 4096, e / 4096);
    forall p | p in v1
      ensures exists u :: u in Outside(vmas, s, e) && InRegion(u, p)
    {
      var u :| u in vmas && InRegion(u, p);
      if u.start >= s && u.end <= e {
        PagesWithin(u.start / 4096, u.end / 4096, s / 4096, e / 4096);
      }
    }
  }

  /** Lowering the start of a region over freshly mapped pages keeps everything covered. */
  lemma CoveredByGrowth(v0: map<nat, Mapping>, v1: map<nat, Mapping>, vmas: seq<Vma>, i: nat, bottom: nat)
    requires Covered(v0, vmas) && i < |vmas| && bottom <= vmas[i].start <= vmas[i].end
    requires v1.Keys == v0.Keys + PagesIn(bottom / 4096, vmas[i].start / 4096)
    ensures Covered(v1, vmas[i := vmas[i].(start := bottom)])
  {
    hide PagesIn;
    var w := vmas[i].(start := bottom);
    var grown := vmas[i := w];
    PagesWithin(bottom / 4096, vmas[i].start / 4096, bottom / 4096, w.end / 4096);
    PagesWithin(vmas[i].start / 4096, vmas[i].end / 4096, bottom / 4096, w.end / 4096);
    assert grown[i] == w;
    forall p | p in v1
      ensures exists u :: u in grown && InRegion(u, p)
    {
      if p in v0 {
        var u :| u in vmas && InRegion(u, p);
        var j :| 0 <= j < |vmas| && vmas[j] == u;
        var u' := grown[j];
        assert u' in grown && InRegion(u', p);
      } else {
        assert w in grown && InRegion(w, p);
      }
    }
  }

  lemma OutsideTidy(vmas: seq<Vma>, s: nat, e: nat)
    requires Tidy(vmas)
    ensures Tidy(Outside(vmas, s, e))
  {
    hide Outside, Aligned;
  }

  lemma GrowthTidy(vmas: seq<Vma>, i: nat, bottom: nat)
    requires Tidy(vmas) && i < |vmas| && bottom <= vmas[i].start && bottom % 4096 == 0
    ensures Tidy(vmas[i := vmas[i].(start := bottom)])
  {
    assert Aligned(vmas[i]);
  }

  /** Moving the start of the first stack region leaves it the first. */
  lemma SameFirstStack(vmas: seq<Vma>, i: nat, bottom: nat)
    requires i == FirstStack(vmas) < |vmas|
    ensures FirstStack(vmas[i := vmas[i].(start := bottom)]) == i
  {
    hide FirstStack;
    var w := vmas[i := vmas[i].(start := bottom)];
    assert w[i].kind == Stack;
  }

  lemma CoveredSameKeys(v0: map<nat, Mapping>, v1: map<nat, Mapping>, vmas: seq<Vma>)
    requires Covered(v0, vmas) && v1.Keys == v0.Keys
    ensures Covered(v1, vmas)
  {
    hide InRegion;
  }

  // --- The arena -----------------------------------------------------------------------------

  /** A range handed out by `mmap`, or taken by `mmap_fixed`. */
  datatype Claim = Claim(fixed: bool, start: nat, end: nat)

  /** Every range `mmap` handed out is aligned, in the arena below the stack, and past all earlier ones. */
  ghost predicate ClaimsApart(log: seq<Claim>) {
    forall j :: 0 <= j < |log| && !log[j].fixed ==>
      && log[j].start % 4096 == 0 && log[j].end % 4096 == 0
      && MMAP_BASE <= log[j].start <= log[j].end <= STACK_LIMIT
      && forall i :: 0 <= i < j ==> log[i].end <= log[j].start
  }

  ghost predicate ClaimsBelow(log: seq<Claim>, top: nat) {
    forall c :: c in log ==> c.end <= top
  }

  lemma ClaimAdded(log: seq<Claim>, top: nat, c: Claim, top': nat)
    requires ClaimsApart(log) && ClaimsBelow(log, top) && top <= top' && c.end <= top'
    requires !c.fixed ==>
               c.start % 4096 == 0 && c.end % 4096 == 0 && MMAP_BASE <= top <= c.start <= c.end <= STACK_LIMIT
    ensures ClaimsApart(log + [c]) && ClaimsBelow(log + [c], top')
  {
  }

  /** No page from `top` up to the stack is present. */
  ghost predicate ArenaFree(view: map<nat, Mapping>, top: nat) {
    forall p :: p in view ==> !(top <= 4096 * p < STACK_LIMIT)
  }

  /** A range that a map may use without touching the free part of the arena. */
  predicate ClearOfArena(start: nat, end: nat, top: nat) {
    end <= top || (STACK_LIMIT <= start && end <= 0x1_0000_0000_0000)
  }

  /** Mapping below the new top of the arena, or above the stack limit, leaves the rest of it free. */
  lemma ArenaKept(v0: map<nat, Mapping>, v1: map<nat, Mapping>, lo: nat, hi: nat, top: nat, top': nat)
    requires ArenaFree(v0, top) && top <= top' && v1.Keys == v0.Keys + PagesIn(lo, hi)
    requires ClearOfArena(4096 * lo, 4096 * hi, top')
    ensures ArenaFree(v1, top')
  {
    hide PagesIn;
    forall p | p in v1
      ensures !(top' <= 4096 * p < STACK_LIMIT)
    {
      if p !in v0 && top' < STACK_LIMIT {
        PagesInPlain(lo, hi, p);
      }
    }
  }

  lemma ArenaFewer(v0: map<nat, Mapping>, v1: map<nat, Mapping>, top: nat)
    requires ArenaFree(v0, top) && v1.Keys <= v0.Keys
    ensures ArenaFree(v1, top)
  {
  }

  /** The pages of a range in a free arena are all new. */
  lemma ArenaNew(view: map<nat, Mapping>, top: nat, end: nat)
    requires ArenaFree(view, top) && top % 4096 == 0 && end % 4096 == 0 && end <= STACK_LIMIT
    ensures PagesIn(top / 4096, end / 4096) !! view.Keys
  {
    hide PagesIn;
    forall p | p in view
      ensures p !in PagesIn(top / 4096, end / 4096)
    {
      PagesInPlain(top / 4096, end / 4096, p);
    }
  }

  /** Every stack region starts where a walk can tell. */
  ghost predicate StacksLow(vmas: seq<Vma>) {
    forall v :: v in vmas && v.kind == Stack ==> v.start <= 0x1_0000_0000_0000
  }

  // --- Addresses -------------------------------------------------------------------------------

  /** With every region below 2^48, coverage is about plain addresses. */
  lemma CoveredAddresses(view: map<nat, Mapping>, vmas: seq<Vma>, p: nat)
    requires Covered(view, vmas) && Tidy(vmas) && p in view
    requires forall v :: v in vmas ==> v.end <= 0x1_0000_0000_0000
    ensures exists v :: v in vmas && v.start <= 4096 * p < v.end
  {
    hide PagesIn;
    var u :| u in vmas && InRegion(u, p);
    LowPage(u, p);
  }

  lemma LowPage(u: Vma, p: nat)
    requires Aligned(u) && u.end <= 0x1_0000_0000_0000 && InRegion(u, p)
    ensures u.start <= 4096 * p < u.end
  {
    var k: nat :| u.start / 4096 <= k < u.end / 4096 && p == k % 0x10_0000_0000;
    SmallPage(k);
  }

  lemma SmallPage(k: nat)
    requires k < 0x10_0000_0000
    ensures k % 0x10_0000_0000 == k
  {
  }

  /** Overlapping maps give every page the same write permission in either order. */
  lemma MapsCommute(v0: map<nat, Mapping>, vA: map<nat, Mapping>, vAB: map<nat, Mapping>,
                    vB: map<nat, Mapping>, vBA: map<nat, Mapping>, sA: set<nat>, sB: set<nat>,
                    wA: bool, wB: bool, user: bool, n1: nat, n2: nat, n3: nat, n4: nat)
    requires MapsPages(v0, vA, sA, wA, user, n1) && MapsPages(vA, vAB, sB, wB, user, n2)
    requires MapsPages(v0, vB, sB, wB, user, n3) && MapsPages(vB, vBA, sA, wA, user, n4)
    ensures vAB.Keys == vBA.Keys
    ensures forall p :: p in vAB ==>
              && vAB[p].writable == vBA[p].writable && vAB[p].user == vBA[p].user
              && (vAB[p].writable <==> (p in v0 && v0[p].writable) || (p in sA && wA) || (p in sB && wB))
  {
  }
}
