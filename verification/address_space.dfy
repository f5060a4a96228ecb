/** The process address space: a four-level tree of page tables, a bump allocator and the region
    list, with the loops that map, protect, unmap and copy. */
module AddressSpaces {
  import opened PhysMemory
  import opened PageTree
  import opened PageViews
  import opened GuestMemory
  import opened Regions

  lemma CopyStart(f: map<nat, Frame>, own: map<nat, Owner>, root: nat, lin: nat, data: seq<byte>)
    ensures TablesSame(f, f, own) && Copied(f, f, root, lin, data, 0) && AllPresent(f, root, lin, 0)
  {
  }

  lemma TablesSameTwice(f: map<nat, Frame>, g: map<nat, Frame>, h: map<nat, Frame>, own: map<nat, Owner>)
    requires TablesSame(f, g, own) && TablesSame(g, h, own)
    ensures TablesSame(f, h, own)
  {
    hide Entry;
  }

  lemma WrapSame(a: nat)
    ensures a % 0x1_0000_0000_0000_0000 % 0x1_0000_0000_0000 == a % 0x1_0000_0000_0000
  {
    var q, r := a / 0x1_0000_0000_0000_0000, a % 0x1_0000_0000_0000_0000;
    var m, s := r / 0x1_0000_0000_0000, r % 0x1_0000_0000_0000;
    assert a == 0x1_0000_0000_0000 * (0x1_0000 * q + m) + s;
    LowPart(0x1_0000 * q + m, s);
  }

  lemma LowPart(k: nat, s: nat)
    requires s < 0x1_0000_0000_0000
    ensures (0x1_0000_0000_0000 * k + s) % 0x1_0000_0000_0000 == s
  {
  }

  /** Two aligned ends: rounding up changes nothing. */
  lemma WholePages(start: nat, end: nat)
    requires start <= end <= U64_MAX - 4095 && end % 4096 == 0
    ensures RangeEnd(start, end - start) == end
  {
  }

  /** A resolved address keeps its offset in the page. */
  lemma ResolvedOffset(f: map<nat, Frame>, root: nat, lin: nat)
    requires Resolved(f, root, lin).Some?
    ensures Resolved(f, root, lin).value % 4096 == lin % 4096
  {
    hide Leaf, FrameOf, PageOf;
  }

  lemma ZeroSame(f: map<nat, Frame>, g: map<nat, Frame>)
    requires ZeroFrom(f, 4096) && SameBytes(f, g)
    ensures ZeroFrom(g, 4096)
  {
    hide ByteAt;
  }

  lemma StartsEmpty(f: map<nat, Frame>, g: map<nat, Frame>, own: map<nat, Owner>, next: nat, root: nat)
    requires ZeroFrom(f, 4096) && SameBytes(f, g) && own == map[root := Table(4, 0)]
    requires root == 4096 && next == 8192
    ensures WellFormed(g, own, next) && RootFits(own, FrameOf(root))
    ensures View(g, FrameOf(root)) == map[]
  {
    hide ByteAt, WellFormed, View, SameBytes, ZeroFrom;
    ZeroSame(f, g);
    EmptyTree(g);
  }

  /** A zeroed frame 1 is an empty tree. */
  lemma EmptyTree(f: map<nat, Frame>)
    requires ZeroFrom(f, 4096)
    ensures WellFormed(f, map[4096 := Table(4, 0)], 8192) && RootFits(map[4096 := Table(4, 0)], 4096)
    ensures FrameOf(4096) == 4096 && View(f, 4096) == map[]
  {
    hide ByteAt, Entry;
    NullEntry();
    var own := map[4096 := Table(4, 0)];
    forall i | 0 <= i < FAN
      ensures EntryFits(own, 4, 0, i, Entry(f, 4096, i))
    {
      ZeroEntry(f, 4096, i);
    }
    forall p: nat | p < PAGES
      ensures !Present(Leaf(f, 4096, 4, p))
    {
      ZeroEntry(f, 4096, Index(p, 4));
    }
  }

  lemma ProgressKeys(a: Tables, b: Tables, pages: set<nat>, writable: bool, user: bool)
    requires a.Good() && MapProgress(a, b, pages, writable, user)
    ensures b.root == a.root && b.Pages().Keys == a.Pages().Keys + pages
    ensures MappedBytes(a.frames, b.frames, a.root, pages)
  {
    hide WellFormed, View, RootFits, DataSame, FreshZero, MappedBytes;
    MapSeen(a, b, pages, writable, user);
  }

  lemma ProgressOwns(a: Tables, b: Tables, pages: set<nat>, writable: bool, user: bool)
    requires MapProgress(a, b, pages, writable, user)
    ensures b.Good() && b.root == a.root
  {
    hide WellFormed, MapsPages, View, Tables.Good;
  }

  lemma PteSetFits(a: Tables, b: Tables, page: nat, m: Mapping)
    requires PteSet(a, b, page, m)
    ensures b.Good()
  {
    hide Tables.Good, Tables.Pages;
  }

  lemma RemapMeans(a: Tables, b: Tables, v: map<nat, Mapping>)
    requires Remapped(a, b, v)
    ensures b.Good() && b.Pages() == v && b.root == a.root && b.next == a.next
  {
    hide Tables.Good, Tables.Pages;
  }

  /** `[start, end)` was mapped for the user: old pages keep frame, data and at least their permission; new
      ones are zero. */
  ghost predicate Grown(a: Tables, b: Tables, start: nat, end: nat, writable: bool) {
    var pages := PagesIn(start / 4096, end / 4096);
    MapProgress(a, b, pages, writable, true) && MappedBytes(a.frames, b.frames, a.root, pages)
  }

  lemma GrownKeys(a: Tables, b: Tables, start: nat, end: nat, writable: bool)
    requires Grown(a, b, start, end, writable)
    ensures b.root == a.root && b.Pages().Keys == a.Pages().Keys + PagesIn(start / 4096, end / 4096)
    ensures MappedBytes(a.frames, b.frames, a.root, PagesIn(start / 4096, end / 4096))
  {
    hide WellFormed, View, RootFits, DataSame, FreshZero, MappedBytes, PagesIn, Tables.Good;
  }

  lemma PageInRange(x: nat, lo: nat, hi: nat)
    requires 4096 * lo <= x < 4096 * hi
    ensures PageOf(x) in PagesIn(lo, hi)
  {
    assert lo <= x / 4096 < hi;
  }

  /** A range mapped where nothing was reads as zeros. */
  lemma FreshReadsZero(a: Tables, b: Tables, start: nat, end: nat, writable: bool)
    requires Grown(a, b, start, end, writable) && start % 4096 == 0 && end % 4096 == 0
    requires PagesIn(start / 4096, end / 4096) !! a.Pages().Keys
    ensures forall x :: start <= x < end ==> GuestByte(b.frames, b.root, x) == Some(0)
  {
    hide GuestByte, PagesIn, PageOf, MapProgress, View;
    GrownKeys(a, b, start, end, writable);
    forall x | start <= x < end
      ensures GuestByte(b.frames, b.root, x) == Some(0)
    {
      PageInRange(x, start / 4096, end / 4096);
    }
  }

  /** `resolve` and the leaf entry, in terms of the map. */
  lemma ResolvedIn(b: Tables, lin: nat)
    requires b.Good()
    ensures Resolved(b.frames, b.root, lin).Some? <==> PageOf(lin) in b.Pages()
    ensures PageOf(lin) in b.Pages() ==>
              var m := b.Pages()[PageOf(lin)];
              && m.frame in b.own && b.own[m.frame] == Data(PageOf(lin))
              && PageDown(Resolved(b.frames, b.root, lin).value) == m.frame
              && Writable(Leaf(b.frames, b.root, 4, PageOf(lin))) == m.writable
  {
    hide WellFormed, View, PageOf, Resolved, RootFits, Leaf, FrameOf, Writable, PageDown;
    ResolvedMeans(b.frames, b.own, b.next, b.root, lin);
  }

  lemma RegionPages(start: nat)
    ensures PageDown(start) / 4096 == start / 4096 && PageDown(start) % 4096 == 0
  {
  }

  lemma WholeStart(start: nat)
    requires start % 4096 == 0
    ensures PageDown(start) == start
  {
  }

  lemma UpAligned(a: u64)
    ensures PageUp(a) % 4096 == 0 && PageUp(a) <= U64_MAX - 4095
  {
  }

  lemma ArenaEnd(addr: u64, len: u64)
    requires addr % 4096 == 0
    ensures (addr + PageUp(len)) % 4096 == 0 && PageUp(len) <= U64_MAX - 4095
  {
  }

  /** The range between the page of `newBottom` and the old bottom of the stack has been mapped. */
  lemma StackMapped(a: Tables, b: Tables, newBottom: nat, top: nat, arena: nat)
    requires a.Good() && top % 4096 == 0
    requires MapProgress(a, b, PagesIn(PageDown(newBottom) / 4096, top / 4096), true, true)
    ensures Grown(a, b, newBottom, top, true)
    ensures b.Pages().Keys == a.Pages().Keys + PagesIn(PageDown(newBottom) / 4096, top / 4096)
    ensures ArenaFree(a.Pages(), arena) && ClearOfArena(PageDown(newBottom), top, arena) ==> ArenaFree(b.Pages(), arena)
    ensures newBottom < top ==> PageOf(newBottom) in b.Pages()
  {
    hide PagesIn, MapProgress, MappedBytes, Tables.Good, Tables.Pages, ArenaFree, ClearOfArena, PageOf, PageDown;
    RegionPages(newBottom);
    DownBelow(newBottom);
    var lo, hi := newBottom / 4096, top / 4096;
    ProgressKeys(a, b, PagesIn(lo, hi), true, true);
    if ArenaFree(a.Pages(), arena) && ClearOfArena(PageDown(newBottom), top, arena) {
      WholeMultiple(top);
      WholeMultiple(PageDown(newBottom));
      ArenaKept(a.Pages(), b.Pages(), lo, hi, arena, arena);
    }
    if newBottom < top {
      PageInRange(newBottom, lo, hi);
    }
  }

  lemma WholeMultiple(x: nat)
    requires x % 4096 == 0
    ensures x == 4096 * (x / 4096)
  {
  }

  lemma DownBelow(x: nat)
    ensures PageDown(x) <= x < PageDown(x) + 4096
    ensures x >= STACK_LIMIT ==> PageDown(x) >= STACK_LIMIT
  {
  }

  lemma BelowArena(to: nat)
    requires to <= MMAP_BASE
    ensures PageUp(to) <= MMAP_BASE
  {
  }

  class AddressSpace {
    var cr3: nat
    var nextPhys: nat
    var vmas: seq<Vma>
    var brk: u64
    var brkBase: u64
    var mmapTop: u64
    /** What each allocated frame is for. */
    ghost var own: map<nat, Owner>
    /** The ranges handed out by `mmap` and taken by `mmap_fixed`, oldest first. */
    ghost var claims: seq<Claim>

    /** The bookkeeping always holds; the tables are well formed for as long as the frame cursor fits an
        entry's address field. */
    ghost predicate Valid(mem: PhysMem)
      reads this, mem
    {
      && nextPhys % 4096 == 0 && nextPhys > 0 && Tidy(vmas)
      && mmapTop % 4096 == 0 && MMAP_BASE <= mmapTop <= U64_MAX - 4095
      && ClaimsApart(claims) && ClaimsBelow(claims, mmapTop)
      && (Fits() ==> Snap(mem).Good())
    }

    predicate Fits()
      reads this`nextPhys
    {
      nextPhys <= PHYS_LIMIT
    }

    /** The page tables, the memory they live in and the frames handed out. */
    ghost function Snap(mem: PhysMem): Tables
      reads this`own, this`nextPhys, this`cr3, mem
    {
      Tables(mem.frames, own, nextPhys, FrameOf(cr3))
    }

    /** The map from pages to mappings that the tables hold. */
    ghost function Pages(mem: PhysMem): map<nat, Mapping>
      reads this`own, this`nextPhys, this`cr3, mem
    {
      Snap(mem).Pages()
    }

    /** Every page present in the tables lies in a region of the list. */
    ghost predicate AllCovered(mem: PhysMem)
      reads this, mem
    {
      Fits() ==> Covered(Pages(mem), vmas)
    }

    /** Nothing is mapped between the top of the arena and the stack limit. */
    ghost predicate ArenaClear(mem: PhysMem)
      reads this, mem
    {
      Fits() ==> ArenaFree(Pages(mem), mmapTop)
    }

    constructor Blank()
      ensures cr3 == 0 && nextPhys == PAGE_SIZE && vmas == [] && brk == brkBase == 0 && mmapTop == MMAP_BASE
      ensures claims == []
    {
      cr3, nextPhys := 0, PAGE_SIZE;
      vmas := [];
      brk, brkBase, mmapTop := 0, 0, MMAP_BASE;
      own, claims := map[], [];
    }

    /** An empty top-level table in the first frame; frame 0 stays unused. */
    static method New(mem: PhysMem) returns (a: AddressSpace)
      requires ZeroFrom(mem.frames, 4096)
      modifies mem
      ensures fresh(a) && a.Valid(mem) && a.AllCovered(mem) && a.ArenaClear(mem) && a.nextPhys == 8192
      ensures a.Pages(mem) == map[] && a.vmas == [] && a.brk == a.brkBase == 0 && a.mmapTop == MMAP_BASE
      ensures a.claims == [] && SameBytes(old(mem.frames), mem.frames)
    {
      hide ByteAt, WellFormed, View, FrameOf, SameBytes, ZeroFrom, RootFits, PhysMem.Load64;
      a := new AddressSpace.Blank();
      ghost var f := mem.frames;
      a.cr3 := a.AllocFrame(mem);
      a.own := map[a.cr3 := Table(4, 0)];
      StartsEmpty(f, mem.frames, a.own, a.nextPhys, a.cr3);
    }

    /** The next zeroed frame; what it is for is recorded by the caller. */
    method AllocFrame(mem: PhysMem) returns (f: nat)
      modifies this`nextPhys, mem
      ensures f == old(nextPhys) && nextPhys == f + PAGE_SIZE
      ensures SameBytes(old(mem.frames), mem.frames)
    {
      f := nextPhys;
      nextPhys := nextPhys + PAGE_SIZE;
      mem.FrameMut(f / 4096);
    }

    method Resolve(mem: PhysMem, lin: nat) returns (r: Option<nat>)
      ensures r == Resolved(mem.frames, FrameOf(cr3), lin)
    {
      hide PhysMem.Load64, FrameOf, Entry, Prefix, Index, Indices, Present, PageOf, Leaf, ByteAt, WordAt;
      var idx := Indices(lin);
      IndicesOfPage(lin);
      NullEntry();
      var table: nat := FrameOf(cr3);
      ghost var leaf := Leaf(mem.frames, table, 4, PageOf(lin));
      for k := 0 to 4
        invariant if k < 4 then Leaf(mem.frames, table, 4 - k, PageOf(lin)) == leaf
                  else Present(leaf) && table == FrameOf(leaf)
      {
        var e := mem.Load64(table + idx[k] * 8);
        EntryIs(mem.frames, table, idx[k]);
        LeafStep(mem.frames, table, 4 - k, PageOf(lin));
        if !Present(e) {
          return None;
        }
        table := FrameOf(e);
      }
      return Some(table + lin % 4096);
    }

    /** The raw leaf entry for `lin`, 0 if any level is unmapped. */
    method PteEntry(mem: PhysMem, lin: nat) returns (e: nat)
      ensures e == Leaf(mem.frames, FrameOf(cr3), 4, PageOf(lin))
    {
      hide PhysMem.Load64, FrameOf, Entry, Prefix, Index, Indices, Present, PageOf, Leaf, ByteAt, WordAt;
      var idx := Indices(lin);
      IndicesOfPage(lin);
      var table: nat := FrameOf(cr3);
      for k := 0 to 3
        invariant Leaf(mem.frames, table, 4 - k, PageOf(lin)) == Leaf(mem.frames, FrameOf(cr3), 4, PageOf(lin))
      {
        e := mem.Load64(table + idx[k] * 8);
        EntryIs(mem.frames, table, idx[k]);
        LeafStep(mem.frames, table, 4 - k, PageOf(lin));
        if !Present(e) {
          return 0;
        }
        table := FrameOf(e);
      }
      e := mem.Load64(table + idx[3] * 8);
      EntryIs(mem.frames, table, idx[3]);
      LeafStep(mem.frames, table, 1, PageOf(lin));
    }

    /** One level of `set_pte`: the next table on the path to `page`, allocated if it is missing. */
    method NextTable(mem: PhysMem, ghost page: nat, ghost k: nat, table: nat, index: nat, ghost a: Tables)
      returns (child: nat)
      requires 1 < k <= 4 && page < PAGES && index == Index(page, k) && nextPhys % 4096 == 0 && nextPhys > 0
      requires Fits() ==> OnPath(a, Snap(mem), page, k, table)
      modifies this`nextPhys, this`own, mem
      ensures nextPhys % 4096 == 0 && old(nextPhys) <= nextPhys <= old(nextPhys) + 4096
      ensures Fits() ==> OnPath(a, Snap(mem), page, k - 1, child)
      ensures old(Fits()) && page in a.Pages() ==> nextPhys == old(nextPhys)
    {
      hide PhysMem.Load64, FrameOf, Entry, Prefix, Index, Present, MakeEntry, OnPath, Tables.Pages, EntrySet, ToLe,
        Stored,
        SameBytes, WordAt;
      ghost var b := Snap(mem);
      var addr := table + index * 8;
      var e := mem.Load64(addr);
      EntryIs(mem.frames, table, index);
      if Present(e) {
        if Fits() {
          PathDown(a, b, page, k, table);
        }
        return FrameOf(e);
      }
      if Fits() {
        PathMissing(a, b, page, k, table);
      }
      child := AllocFrame(mem);
      ghost var vivified := mem.frames;
      e := MakeEntry(child, true, true);
      mem.Store64(addr, e);
      if Fits() {
        EntrySetVia(b.frames, vivified, mem.frames, table, index, e);
        PathGrown(a, b, page, k, table, mem.frames);
        own := own[child := Table(k - 1, Prefix(page, k - 1))];
        assert Snap(mem) == WithTable(b, mem.frames, page, k);
      }
      child := FrameOf(e);
    }

    method SetPte(mem: PhysMem, lin: nat, phys: nat, prot: nat, user: bool)
      requires Valid(mem)
      requires Fits() ==> phys in own && own[phys] == Data(PageOf(lin))
      modifies this`nextPhys, this`own, mem
      ensures Valid(mem) && old(nextPhys) <= nextPhys <= old(nextPhys) + 3 * 4096
      ensures old(Fits()) && PageOf(lin) in old(Pages(mem)) ==> nextPhys == old(nextPhys)
      ensures Fits() ==> PteSet(old(Snap(mem)), Snap(mem), PageOf(lin), Mapping(phys, Writes(prot), user))
    {
      hide FrameOf, Index, Indices, PageOf, OnPath, PteSet, Tables.Good, Tables.Pages, EntrySet, Writes, MakeEntry,
        ToLe,
        Stored, SameBytes, Tidy, ClaimsApart, ClaimsBelow;
      ghost var a, page := Snap(mem), PageOf(lin);
      var idx := Indices(lin);
      IndicesOfPage(lin);
      var table: nat := FrameOf(cr3);
      if Fits() {
        PathStart(a, page);
      }
      for k := 0 to 3
        invariant nextPhys % 4096 == 0 && old(nextPhys) <= nextPhys <= old(nextPhys) + 4096 * k
        invariant old(Fits()) && page in a.Pages() ==> nextPhys == old(nextPhys)
        invariant Fits() ==> OnPath(a, Snap(mem), page, 4 - k, table)
      {
        table := NextTable(mem, page, 4 - k, table, idx[k], a);
      }
      ghost var b := Snap(mem);
      mem.Store64(table + idx[3] * 8, MakeEntry(FrameOf(phys), Writes(prot), user));
      if Fits() {
        PathOwns(a, b, page, table, phys);
        SameAsItself(b.frames);
        EntrySetVia(b.frames, b.frames, mem.frames, table, idx[3], MakeEntry(FrameOf(phys), Writes(prot), user));
        PathEnd(a, b, page, table, mem.frames, Mapping(phys, Writes(prot), user));
        PteSetFits(a, Snap(mem), page, Mapping(phys, Writes(prot), user));
      }
    }

    /** One page of `map_range`: a fresh frame if it is not mapped, its own frame and a wider permission if
        it is. */
    method MapPage(mem: PhysMem, lin: u64, prot: nat, user: bool, ghost a: Tables, ghost pages: set<nat>)
      requires Valid(mem)
      requires Fits() ==> MapProgress(a, Snap(mem), pages, Writes(prot), user)
      modifies this`nextPhys, this`own, mem
      ensures Valid(mem) && old(nextPhys) <= nextPhys <= old(nextPhys) + 4 * 4096
      ensures Fits() ==> MapProgress(a, Snap(mem), pages + {PageOf(lin)}, Writes(prot), user)
    {
      hide FrameOf, PageOf, Writes, MapProgress, PteSet, Tables.Good, Tables.Pages, Resolved, PageDown, Writable, Leaf,
        SameBytes, Tidy, ClaimsApart, ClaimsBelow;
      ghost var b, page := Snap(mem), PageOf(lin);
      if Fits() {
        ProgressOwns(a, b, pages, Writes(prot), user);
        ResolvedIn(b, lin);
      }
      var r := Resolve(mem, lin);
      if r == None {
        var phys := AllocFrame(mem);
        ghost var g := mem.frames;
        if Fits() {
          DataAllocated(b, g, page);
          own := own[phys := Data(page)];
          assert Snap(mem) == WithData(b, g, page);
        }
        SetPte(mem, lin, phys, prot, user);
        if Fits() {
          MapFresh(a, b, pages, Writes(prot), user, page, g, Snap(mem));
        }
      } else {
        var pte := PteEntry(mem, lin);
        var widened := if Writable(pte) && !Writes(prot) then prot + PROT_WRITE else prot;
        WidenedProt(prot);
        SetPte(mem, lin, PageDown(r.value), widened, user);
        if Fits() {
          MapExisting(a, b, pages, Writes(prot), user, page, Snap(mem));
        }
      }
    }

    /** Map `[start, start + len)`, page-rounded, without recording a region. */
    method MapRange(mem: PhysMem, start: u64, len: u64, prot: nat, user: bool)
      requires Valid(mem)
      modifies this`nextPhys, this`own, mem
      ensures Valid(mem)
      ensures old(nextPhys) <= nextPhys <= old(nextPhys) + 4 * (RangeEnd(start, len) - PageDown(start))
      ensures Fits() ==> MapProgress(old(Snap(mem)), Snap(mem), PagesIn(start / 4096, RangeEnd(start, len) / 4096),
                                     Writes(prot), user)
    {
      hide PageOf, Writes, MapProgress, Tables.Good, PagesIn, RangeEnd, PageDown, Valid;
      ghost var a := Snap(mem);
      var e := RangeEnd(start, len);
      var lin := PageDown(start);
      RangeAligned(start, len);
      ghost var lo: nat, n: nat := start / 4096, start / 4096;
      PagesInStep(lo, lo);
      if Fits() {
        ValidTables(mem);
        MapStart(a, Writes(prot), user);
      }
      while lin < e
        invariant lin == 4096 * n <= e && lo <= n && Valid(mem)
        invariant old(nextPhys) <= nextPhys <= old(nextPhys) + 4 * (lin - PageDown(start))
        invariant Fits() ==> MapProgress(a, Snap(mem), PagesIn(lo, n), Writes(prot), user)
      {
        PageOfMultiple(n);
        PagesInStep(lo, n);
        MapPage(mem, lin, prot, user, a, PagesIn(lo, n));
        lin, n := lin + PAGE_SIZE, n + 1;
      }
    }

    lemma ValidTables(mem: PhysMem)
      requires Valid(mem) && Fits()
      ensures Snap(mem).Good()
    {
      hide Tables.Good;
    }

    /** Change the protection of the mapped pages of a range; unmapped pages are skipped. */
    method Protect(mem: PhysMem, start: u64, len: u64, prot: nat)
      requires Valid(mem) && Fits()
      modifies this`nextPhys, this`own, mem
      ensures Valid(mem) && nextPhys == old(nextPhys)
      ensures Remapped(old(Snap(mem)), Snap(mem),
                       ProtectPages(old(Pages(mem)), PagesIn(start / 4096, RangeEnd(start, len) / 4096), Writes(prot)))
      ensures SameGuest(old(mem.frames), mem.frames, FrameOf(cr3))
      ensures old(AllCovered(mem)) ==> AllCovered(mem)
      ensures old(ArenaClear(mem)) ==> ArenaClear(mem)
    {
      hide FrameOf, PageOf, Writes, PagesIn, RangeEnd, Resolved, PageDown, PteSet, ProtectPages, Remapped, Covered,
        Tidy,
        ClaimsApart, ClaimsBelow, Tables.Good, Tables.Pages, Leaf, Writable, SameGuest, ArenaFree;
      ghost var a, covered, clear := Snap(mem), AllCovered(mem), ArenaClear(mem);
      ghost var v0 := a.Pages();
      var e := RangeEnd(start, len);
      var lin := PageDown(start);
      RangeAligned(start, len);
      ghost var lo: nat, n: nat := start / 4096, start / 4096;
      PagesInStep(lo, lo);
      RemapStart(a, Writes(prot));
      while lin < e
        invariant lin == 4096 * n <= e && lo <= n
        invariant Valid(mem) && nextPhys == old(nextPhys)
        invariant Remapped(a, Snap(mem), ProtectPages(v0, PagesIn(lo, n), Writes(prot)))
      {
        ghost var b, page, done := Snap(mem), PageOf(lin), PagesIn(lo, n);
        ghost var v := ProtectPages(v0, done, Writes(prot));
        PageOfMultiple(n);
        RemapMeans(a, b, v);
        ResolvedIn(b, lin);
        ProtectOne(v0, done, Writes(prot), page);
        ProtectKeeps(v0, done, Writes(prot));
        var phys := Resolve(mem, lin);
        if phys.Some? {
          SetPte(mem, lin, PageDown(phys.value), prot, true);
          RemapStep(a, b, v, page, Mapping(PageDown(phys.value), Writes(prot), true), Snap(mem));
        }
        PagesInStep(lo, n);
        lin, n := lin + PAGE_SIZE, n + 1;
      }
      RemapMeans(a, Snap(mem), ProtectPages(v0, PagesIn(lo, n), Writes(prot)));
      ProtectSeen(a, Snap(mem), PagesIn(lo, n), Writes(prot));
      ProtectKeeps(v0, PagesIn(lo, n), Writes(prot));
      if covered {
        CoveredSameKeys(v0, Pages(mem), vmas);
      }
      if clear {
        ArenaFewer(v0, Pages(mem), mmapTop);
      }
    }

    /** One page of `unmap`: walk to its leaf table and clear the entry, if the table is there. */
    method ClearPage(mem: PhysMem, lin: nat, ghost a: Tables, ghost v: map<nat, Mapping>)
      requires Valid(mem) && Fits() && Remapped(a, Snap(mem), v)
      modifies mem
      ensures Valid(mem) && Remapped(a, Snap(mem), v - {PageOf(lin)})
    {
      hide FrameOf, Entry, Index, Indices, PageOf, Present, Through, EntrySet, Remapped, Tidy, ClaimsApart, ClaimsBelow,
        Tables.Good, Tables.Pages, PhysMem.Load64, ToLe, Stored, SameBytes, WordAt;
      ghost var b, page := Snap(mem), PageOf(lin);
      RemapMeans(a, b, v);
      var idx := Indices(lin);
      IndicesOfPage(lin);
      var table: nat := FrameOf(cr3);
      ThroughStart(b.frames, b.root, page);
      for k := 0 to 3
        invariant Snap(mem) == b && Valid(mem) && Through(b.frames, b.root, 4, page, 4 - k, table)
      {
        var ent := mem.Load64(table + idx[k] * 8);
        EntryIs(b.frames, table, idx[k]);
        if !Present(ent) {
          MissingLevel(b, page, 4 - k, table);
          assert v - {page} == v;
          return;
        }
        ThroughNext(b.frames, b.root, 4, page, 4 - k, table);
        table := FrameOf(ent);
      }
      mem.Store64(table + idx[3] * 8, 0);
      SameAsItself(b.frames);
      EntrySetVia(b.frames, b.frames, mem.frames, table, idx[3], 0);
      UnmapStep(a, b, v, page, table, mem.frames);
      RemapMeans(a, Snap(mem), v - {page});
    }

    /** Clear the leaf entries of a range and drop the regions it swallows whole. */
    method Unmap(mem: PhysMem, start: u64, len: u64)
      requires Valid(mem) && Fits()
      modifies this`vmas, mem
      ensures Valid(mem)
      ensures Remapped(old(Snap(mem)), Snap(mem), old(Pages(mem)) - PagesIn(start / 4096, RangeEnd(start, len) / 4096))
      ensures UnmappedBytes(old(mem.frames), mem.frames, FrameOf(cr3),
                            PagesIn(start / 4096, RangeEnd(start, len) / 4096))
      ensures vmas == Outside(old(vmas), PageDown(start), RangeEnd(start, len))
      ensures old(AllCovered(mem)) ==> AllCovered(mem)
      ensures old(ArenaClear(mem)) ==> ArenaClear(mem)
    {
      hide FrameOf, PageOf, PagesIn, RangeEnd, PageDown, Remapped, Outside, Covered, Tidy, ClaimsApart, ClaimsBelow,
        Tables.Good, Tables.Pages, UnmappedBytes, ArenaFree;
      ghost var a, covered, clear := Snap(mem), AllCovered(mem), ArenaClear(mem);
      ghost var v0 := a.Pages();
      var s := PageDown(start);
      var e := RangeEnd(start, len);
      var lin := s;
      RangeAligned(start, len);
      ghost var lo: nat, n: nat := start / 4096, start / 4096;
      PagesInStep(lo, lo);
      RemapStart(a, false);
      while lin < e
        invariant lin == 4096 * n <= e && lo <= n
        invariant Valid(mem) && vmas == old(vmas)
        invariant Remapped(a, Snap(mem), v0 - PagesIn(lo, n))
      {
        PageOfMultiple(n);
        RemoveMore(v0, PagesIn(lo, n), PageOf(lin));
        PagesInStep(lo, n);
        ClearPage(mem, lin, a, v0 - PagesIn(lo, n));
        lin, n := lin + PAGE_SIZE, n + 1;
      }
      RemapMeans(a, Snap(mem), v0 - PagesIn(lo, n));
      UnmapSeen(a, Snap(mem), PagesIn(lo, n));
      RegionPages(start);
      OutsideTidy(vmas, s, e);
      if covered {
        CoveredByUnmap(v0, vmas, s, e);
      }
      if clear {
        ArenaFewer(v0, Pages(mem), mmapTop);
      }
      vmas := Outside(vmas, s, e);
    }

    // --- Regions ---------------------------------------------------------------------------

    /** Map a range and record its region. */
    method Map(mem: PhysMem, start: u64, len: u64, prot: nat, kind: VmaKind)
      requires Valid(mem)
      modifies this`nextPhys, this`own, this`vmas, mem
      ensures Valid(mem)
      ensures old(nextPhys) <= nextPhys <= old(nextPhys) + 4 * (RangeEnd(start, len) - PageDown(start))
      ensures Fits() ==> Grown(old(Snap(mem)), Snap(mem), start, RangeEnd(start, len), Writes(prot))
      ensures vmas == old(vmas) + [Vma(PageDown(start), RangeEnd(start, len), prot, kind)]
      ensures old(AllCovered(mem)) ==> AllCovered(mem)
      ensures old(ArenaClear(mem)) && ClearOfArena(PageDown(start), RangeEnd(start, len), mmapTop) ==> ArenaClear(mem)
    {
      hide FrameOf, PagesIn, RangeEnd, PageDown, Writes, Covered, MapProgress, MappedBytes, Tables.Good, Tables.Pages,
        ArenaFree, ClearOfArena, ClaimsApart, ClaimsBelow;
      ghost var a, covered, clear, vmas0 := Snap(mem), AllCovered(mem), ArenaClear(mem), vmas;
      MapRange(mem, start, len, prot, true);
      var region := Vma(PageDown(start), RangeEnd(start, len), prot, kind);
      vmas := vmas + [region];
      RangeAligned(start, len);
      RegionPages(start);
      ghost var lo, hi := start / 4096, RangeEnd(start, len) / 4096;
      if Fits() {
        ProgressKeys(a, Snap(mem), PagesIn(lo, hi), Writes(prot), true);
        if covered {
          CoveredByMap(a.Pages(), Pages(mem), vmas0, region, lo, hi);
        }
        if clear && ClearOfArena(PageDown(start), RangeEnd(start, len), mmapTop) {
          ArenaKept(a.Pages(), Pages(mem), lo, hi, mmapTop, mmapTop);
        }
      }
    }

    /** Bump-allocate a region from the arena; 0 when it would run into the stack. What it hands out is past
        every earlier claim and, where nothing else was mapped into the arena, holds zeros. */
    method Mmap(mem: PhysMem, len: u64, prot: nat) returns (addr: u64)
      requires Valid(mem)
      modifies this`nextPhys, this`own, this`vmas, this`mmapTop, this`claims, mem
      ensures Valid(mem) && old(nextPhys) <= nextPhys <= old(nextPhys) + 4 * PageUp(len)
      ensures addr == 0 <==> old(mmapTop) + PageUp(len) > STACK_LIMIT
      ensures addr == 0 ==>
                && mem.frames == old(mem.frames) && vmas == old(vmas) && mmapTop == old(mmapTop)
                && nextPhys == old(nextPhys) && own == old(own) && claims == old(claims)
      ensures addr != 0 ==> addr == old(mmapTop) && mmapTop == addr + PageUp(len) <= STACK_LIMIT
      ensures addr != 0 ==> vmas == old(vmas) + [Vma(addr, mmapTop, prot, Mapped)]
      ensures addr != 0 ==> claims == old(claims) + [Claim(false, addr, mmapTop)]
      ensures addr != 0 ==> forall c :: c in old(claims) ==> c.end <= addr
      ensures addr != 0 && Fits() ==> Grown(old(Snap(mem)), Snap(mem), addr, mmapTop, Writes(prot))
      ensures addr != 0 && Fits() && old(ArenaClear(mem)) ==>
                && PagesIn(addr / 4096, mmapTop / 4096) !! old(Pages(mem)).Keys
                && forall x :: addr <= x < mmapTop ==> GuestByte(mem.frames, FrameOf(cr3), x) == Some(0)
      ensures old(AllCovered(mem)) ==> AllCovered(mem)
      ensures old(ArenaClear(mem)) ==> ArenaClear(mem)
    {
      hide FrameOf, PagesIn, RangeEnd, PageDown, Writes, Covered, Grown, Tables.Good, Tables.Pages, ArenaFree, PageUp,
        ClaimsApart, Tidy, GuestByte;
      addr := mmapTop;
      var size := PageUp(len);
      ArenaEnd(addr, len);
      if SaturatingAdd(addr, size) > STACK_LIMIT {
        return 0;
      }
      ghost var a, clear := Snap(mem), ArenaClear(mem);
      WholePages(addr, addr + size);
      WholeStart(addr);
      ClaimAdded(claims, mmapTop, Claim(false, addr, addr + size), addr + size);
      Map(mem, addr, size, prot, Mapped);
      mmapTop := mmapTop + size;
      claims := claims + [Claim(false, addr, mmapTop)];
      if Fits() {
        GrownKeys(a, Snap(mem), addr, mmapTop, Writes(prot));
        if clear {
          ArenaNew(a.Pages(), addr, mmapTop);
          ArenaKept(a.Pages(), Pages(mem), addr / 4096, mmapTop / 4096, addr, mmapTop);
          FreshReadsZero(a, Snap(mem), addr, mmapTop, Writes(prot));
        }
      }
    }

    method MmapFixed(mem: PhysMem, addr: u64, len: u64, prot: nat)
      requires Valid(mem)
      modifies this`nextPhys, this`own, this`vmas, this`mmapTop, this`claims, mem
      ensures Valid(mem)
      ensures old(nextPhys) <= nextPhys <= old(nextPhys) + 4 * (RangeEnd(addr, len) - PageDown(addr))
      ensures mmapTop == if RangeEnd(addr, len) > old(mmapTop) then RangeEnd(addr, len) else old(mmapTop)
      ensures vmas == old(vmas) + [Vma(PageDown(addr), RangeEnd(addr, len), prot, Mapped)]
      ensures claims == old(claims) + [Claim(true, PageDown(addr), RangeEnd(addr, len))]
      ensures Fits() ==> Grown(old(Snap(mem)), Snap(mem), addr, RangeEnd(addr, len), Writes(prot))
      ensures old(AllCovered(mem)) ==> AllCovered(mem)
      ensures old(ArenaClear(mem)) ==> ArenaClear(mem)
    {
      hide FrameOf, PagesIn, RangeEnd, PageDown, Writes, Covered, Grown, Tables.Good, Tables.Pages, ArenaFree,
        ClaimsApart,
        ClaimsBelow, Tidy;
      ghost var a, clear, top := Snap(mem), ArenaClear(mem), mmapTop;
      RangeAligned(addr, len);
      Map(mem, addr, len, prot, Mapped);
      mmapTop := if RangeEnd(addr, len) > mmapTop then RangeEnd(addr, len) else mmapTop;
      ClaimAdded(claims, top, Claim(true, PageDown(addr), RangeEnd(addr, len)), mmapTop);
      claims := claims + [Claim(true, PageDown(addr), RangeEnd(addr, len))];
      if Fits() && clear {
        GrownKeys(a, Snap(mem), addr, RangeEnd(addr, len), Writes(prot));
        ArenaKept(a.Pages(), Pages(mem), addr / 4096, RangeEnd(addr, len) / 4096, top, mmapTop);
      }
    }

    method InitBrk(addr: u64)
      modifies this`brk, this`brkBase
      ensures brk == brkBase == PageUp(addr)
    {
      var b := PageUp(addr);
      brk, brkBase := b, b;
    }

    /** Query or move the program break; growing it maps the pages in between. */
    method SetBrk(mem: PhysMem, to: u64) returns (r: u64)
      requires Valid(mem)
      modifies this`nextPhys, this`own, this`vmas, this`brk, mem
      ensures Valid(mem) && r == brk
      ensures brk == if brkBase <= to <= MMAP_BASE then to else old(brk)
      ensures var grown := brkBase <= to <= MMAP_BASE && PageUp(to) > PageUp(old(brk));
              && vmas == old(vmas) + (if grown then [Vma(PageUp(old(brk)), PageUp(to), 3, Heap)] else [])
              && old(nextPhys) <= nextPhys
              && nextPhys <= old(nextPhys) + (if grown then 4 * (PageUp(to) - PageUp(old(brk))) else 0)
              && (!grown ==> mem.frames == old(mem.frames) && own == old(own))
              && (grown && Fits() ==> Grown(old(Snap(mem)), Snap(mem), PageUp(old(brk)), PageUp(to), true))
      ensures old(AllCovered(mem)) ==> AllCovered(mem)
      ensures old(ArenaClear(mem)) ==> ArenaClear(mem)
    {
      hide FrameOf, PagesIn, RangeEnd, PageDown, Covered, Grown, Tables.Good, Tables.Pages, ArenaFree, Tidy, PageUp,
        ClaimsApart, ClaimsBelow;
      if to < brkBase || to > MMAP_BASE {
        return brk;
      }
      var prior, want := PageUp(brk), PageUp(to);
      UpAligned(brk);
      UpAligned(to);
      BelowArena(to);
      if want > prior {
        WholePages(prior, want);
        WholeStart(prior);
        Map(mem, prior, want - prior, PROT_READ + PROT_WRITE, Heap);
      }
      brk := to;
      r := to;
    }

    /** Whether a fault at `lin` is stack growth, and the page to grow down to. */
    function IsStackGrowth(lin: nat): (r: Option<nat>)
      reads this`vmas
      ensures r.Some? ==> STACK_LIMIT <= r.value <= lin < r.value + 4096 && r.value % 4096 == 0
    {
      var i := FirstStack(vmas);
      if i < |vmas| && lin >= STACK_LIMIT && lin < vmas[i].start then Some(PageDown(lin)) else None
    }

    /** Extend the first stack region down to the page of `newBottom`. A fault that classifies as stack growth
        finds its page mapped and its address inside the region afterwards. */
    method GrowStack(mem: PhysMem, newBottom: u64)
      requires Valid(mem)
      modifies this`nextPhys, this`own, this`vmas, mem
      ensures Valid(mem)
      ensures var i := FirstStack(old(vmas));
              var top := if i < |old(vmas)| then old(vmas)[i].start else STACK_TOP;
              if PageDown(newBottom) < top then
                && vmas == (if i < |old(vmas)| then old(vmas)[i := old(vmas)[i].(start := PageDown(newBottom))]
                            else old(vmas))
                && old(nextPhys) <= nextPhys <= old(nextPhys) + 4 * (top - PageDown(newBottom))
                && (Fits() ==> Grown(old(Snap(mem)), Snap(mem), newBottom, top, true))
                && (old(ArenaClear(mem)) && ClearOfArena(PageDown(newBottom), top, mmapTop) ==> ArenaClear(mem))
              else vmas == old(vmas) && mem.frames == old(mem.frames) && own == old(own) && nextPhys == old(nextPhys)
      ensures old(AllCovered(mem)) && FirstStack(old(vmas)) < |old(vmas)| ==> AllCovered(mem)
      ensures old(IsStackGrowth(newBottom)).Some? ==>
                var i := FirstStack(vmas);
                && i == FirstStack(old(vmas)) < |vmas| && vmas[i].kind == Stack
                && STACK_LIMIT <= vmas[i].start <= newBottom < vmas[i].end
                && (Fits() ==> PageOf(newBottom) in Pages(mem))
                && (old(AllCovered(mem)) ==> AllCovered(mem))
    {
      hide FrameOf, PagesIn, RangeEnd, PageDown, Covered, Grown, MapProgress, MappedBytes, FirstStack, Tables.Good,
        Tables.Pages, ArenaFree, ClearOfArena, ClaimsApart, ClaimsBelow, PageOf;
      ghost var a, covered, clear, vmas0 := Snap(mem), AllCovered(mem), ArenaClear(mem), vmas;
      var i := FirstStack(vmas);
      var top := if i < |vmas| then vmas[i].start else STACK_TOP;
      var bottom := PageDown(newBottom);
      RangeAligned(newBottom, 0);
      RegionPages(newBottom);
      DownBelow(newBottom);
      if bottom < top {
        assert i < |vmas| ==> Aligned(vmas[i]);
        WholePages(bottom, top);
        WholeStart(bottom);
        MapRange(mem, bottom, top - bottom, PROT_READ + PROT_WRITE, true);
        if Fits() {
          StackMapped(a, Snap(mem), newBottom, top, mmapTop);
        }
        if i < |vmas| {
          GrowthTidy(vmas, i, bottom);
          SameFirstStack(vmas, i, bottom);
          vmas := vmas[i := vmas[i].(start := bottom)];
          if Fits() && covered {
            CoveredByGrowth(a.Pages(), Pages(mem), vmas0, i, bottom);
          }
        }
      }
    }

    // --- Guest memory ---------------------------------------------------------------------

    /** Copy `data` to guest address `lin`, page by page; `done` bytes were stored. */
    method WriteBytes(mem: PhysMem, lin: u64, data: seq<byte>) returns (ok: bool, ghost done: nat)
      requires Valid(mem) && Fits()
      modifies mem
      ensures Valid(mem)
      ensures TablesSame(old(mem.frames), mem.frames, own) && Pages(mem) == old(Pages(mem))
      ensures if ok then done == |data|
              else done < |data| && GuestAt(old(mem.frames), FrameOf(cr3), lin, done) == None
      ensures AllPresent(old(mem.frames), FrameOf(cr3), lin, done)
      ensures |data| <= LINEAR_END ==> Copied(old(mem.frames), mem.frames, FrameOf(cr3), lin, data, done)
    {
      hide PhysMem.Load64, FrameOf, Entry, Leaf, Present, PageOf, View, WellFormed, RootFits, ByteAt, WordAt,
        SameBytes, Stored, Prefix, Resolved, GuestByte, GuestAt, AllPresent, Copied, TablesSame, SameLeaves, Bytes;
      ghost var f0, root := mem.frames, FrameOf(cr3);
      done := 0;
      var at := 0;
      CopyStart(f0, own, root, lin, data);
      while at < |data|
        invariant at == done <= |data|
        invariant Valid(mem) && TablesSame(f0, mem.frames, own)
        invariant AllPresent(f0, root, lin, done)
        invariant |data| <= LINEAR_END ==> Copied(f0, mem.frames, root, lin, data, done)
      {
        ghost var f1 := mem.frames;
        var addr := (lin + at) % 0x1_0000_0000_0000_0000;
        WrapSame(lin + at);
        var phys := Resolve(mem, addr);
        TablesSameLeaves(f0, f1, own, nextPhys, root);
        ResolvedSame(f0, f1, root, addr);
        var n := if 4096 - addr % 4096 < |data| - at then 4096 - addr % 4096 else |data| - at;
        PresentMore(f0, root, lin, at, n, addr);
        if phys == None {
          return false, done;
        }
        ResolvedOffset(f1, root, addr);
        mem.CopyIn(phys.value, data[at..at + n]);
        ChunkSeen(f1, mem.frames, own, nextPhys, root, addr, phys.value, data[at..at + n]);
        TablesSameTwice(f0, f1, mem.frames, own);
        if |data| <= LINEAR_END {
          CopyStep(f0, f1, mem.frames, own, nextPhys, root, lin, data, at, n, addr, phys.value);
        }
        at, done := at + n, at + n;
      }
      TablesSameLeaves(f0, mem.frames, own, nextPhys, root);
      return true, done;
    }

    /** Copy `chunk` into `buf` at `at`. */
    static method Place(buf: array<byte>, at: nat, chunk: seq<byte>)
      requires at + |chunk| <= buf.Length
      modifies buf
      ensures buf[..at + |chunk|] == old(buf[..at]) + chunk && buf[at + |chunk|..] == old(buf[at + |chunk|..])
    {
      forall i | 0 <= i < |chunk| {
        buf[at + i] := chunk[i];
      }
    }

    /** Fill `buf` from guest address `lin`, page by page. */
    method ReadBytes(mem: PhysMem, lin: u64, buf: array<byte>) returns (ok: bool, ghost done: nat)
      modifies buf
      ensures done <= buf.Length && buf[done..] == old(buf[done..])
      ensures Holds(mem.frames, FrameOf(cr3), lin, buf[..done])
      ensures if ok then done == buf.Length
              else done < buf.Length && GuestAt(mem.frames, FrameOf(cr3), lin, done) == None
    {
      hide PhysMem.Load64, FrameOf, Leaf, Present, PageOf, ByteAt, Resolved, GuestByte, GuestAt, AllPresent, Holds;
      ghost var root := FrameOf(cr3);
      done := 0;
      var at := 0;
      HoldsNothing(mem.frames, root, lin);
      while at < buf.Length
        invariant at == done <= buf.Length
        invariant buf[done..] == old(buf[done..])
        invariant Holds(mem.frames, root, lin, buf[..done])
      {
        var addr := (lin + at) % 0x1_0000_0000_0000_0000;
        WrapSame(lin + at);
        var phys := Resolve(mem, addr);
        var n := if 4096 - addr % 4096 < buf.Length - at then 4096 - addr % 4096 else buf.Length - at;
        HoldsPresent(mem.frames, root, lin, buf[..at]);
        PresentMore(mem.frames, root, lin, at, n, addr);
        if phys == None {
          return false, done;
        }
        ResolvedOffset(mem.frames, root, addr);
        var chunk := mem.CopyOut(phys.value, n);
        HoldsMore(mem.frames, root, lin, buf[..at], n, addr, phys.value);
        Place(buf, at, chunk);
        at, done := at + n, at + n;
      }
      return true, done;
    }

    /** Read a NUL-terminated string of at most `max` bytes. */
    method ReadCstr(mem: PhysMem, lin: u64, max: nat) returns (r: Option<seq<byte>>)
      ensures r.Some? ==>
                && |r.value| <= max && NulFree(r.value)
                && Holds(mem.frames, FrameOf(cr3), lin, r.value)
                && (|r.value| < max ==> StringAt(mem.frames, FrameOf(cr3), lin, r.value))
      ensures r == None ==>
                exists s: seq<byte> ::
                  && |s| < max && NulFree(s) && Holds(mem.frames, FrameOf(cr3), lin, s)
                  && GuestAt(mem.frames, FrameOf(cr3), lin, |s|) == None
      ensures forall s :: NulFree(s) && |s| < max && StringAt(mem.frames, FrameOf(cr3), lin, s) ==> r == Some(s)
    {
      hide PhysMem.Load64, FrameOf, Leaf, Present, PageOf, ByteAt, Resolved, GuestByte, GuestAt, Holds;
      ghost var root := FrameOf(cr3);
      var out: seq<byte> := [];
      HoldsNothing(mem.frames, root, lin);
      for i := 0 to max
        invariant |out| == i && NulFree(out) && Holds(mem.frames, root, lin, out)
      {
        var addr := (lin + i) % 0x1_0000_0000_0000_0000;
        WrapSame(lin + i);
        var p := Resolve(mem, addr);
        ByteOf(mem.frames, root, lin, i, addr);
        if p == None {
          NoStringHere(mem.frames, root, lin, out);
          return None;
        }
        var b := mem.Load8(p.value);
        HoldsOne(mem.frames, root, lin, out, b);
        if b == 0 {
          OneString(mem.frames, root, lin, out);
          return Some(out);
        }
        out := out + [b];
      }
      StringPasses(mem.frames, root, lin, out);
      return Some(out);
    }
  }
}
