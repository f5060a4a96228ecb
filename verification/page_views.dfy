/** What a four-level tree of page tables means: a finite map from pages to mappings, and how the
    stores of `set_pte`, `map_range`, `protect` and `unmap` act on it. */
module PageViews {
  import opened PhysMemory
  import opened PageTree

  const PAGE_SIZE: nat := 4096

  /** Pages a walk can tell apart: it uses address bits 12 to 47 only. */
  const PAGES: nat := 0x10_0000_0000

  const U64_MAX: nat := 0xFFFF_FFFF_FFFF_FFFF

  type u64 = x: int | 0 <= x <= 0xFFFF_FFFF_FFFF_FFFF

  const PROT_READ: nat := 1
  const PROT_WRITE: nat := 2

  // --- Addresses ------------------------------------------------------------------------

  function SaturatingAdd(a: nat, b: nat): nat {
    if a + b > U64_MAX then U64_MAX else a + b
  }

  function PageUp(addr: nat): nat {
    SaturatingAdd(addr, 4095) / 4096 * 4096
  }

  function PageDown(addr: nat): nat {
    addr / 4096 * 4096
  }

  function RangeEnd(start: nat, len: nat): nat {
    PageUp(SaturatingAdd(start, len))
  }

  /** The page a linear address falls in, as the tables see it. */
  function PageOf(lin: nat): (p: nat)
    ensures p < PAGES
  {
    lin / 4096 % 0x10_0000_0000
  }

  /** Whether protection bits ask for write access. */
  predicate Writes(prot: nat) {
    prot / 2 % 2 == 1
  }

  /** The four table indices of a linear address, outermost first. */
  function Indices(lin: nat): (s: seq<nat>)
    ensures |s| == 4
  {
    [lin / 0x80_0000_0000 % 512, lin / 0x4000_0000 % 512, lin / 0x20_0000 % 512, lin / 4096 % 512]
  }

  lemma IndicesOfPage(lin: nat)
    ensures forall k :: 0 <= k < 4 ==> Indices(lin)[k] == Index(PageOf(lin), 4 - k)
    ensures Prefix(PageOf(lin), 4) == 0
  {
    var q := lin / 4096;
    var p := PageOf(lin);
    assert Prefix(p, 1) == p / 512;
    assert Prefix(p, 2) == p / 512 / 512;
    assert Prefix(p, 3) == p / 512 / 512 / 512;
    assert Prefix(p, 4) == p / 512 / 512 / 512 / 512;
    assert lin / 0x20_0000 == q / 512;
    assert lin / 0x4000_0000 == q / 512 / 512;
    assert lin / 0x80_0000_0000 == q / 512 / 512 / 512;
    LowDigits(q, p);
  }

  lemma LowDigits(q: nat, p: nat)
    requires p == q % 0x10_0000_0000
    ensures p % 512 == q % 512
    ensures p / 512 % 512 == q / 512 % 512
    ensures p / 512 / 512 % 512 == q / 512 / 512 % 512
    ensures p / 512 / 512 / 512 % 512 == q / 512 / 512 / 512 % 512
    ensures p / 512 / 512 / 512 / 512 == 0
  {
    var k := q / 0x10_0000_0000;
    assert q == p + 0x10_0000_0000 * k;
    assert q / 512 == p / 512 + 0x800_0000 * k;
    assert q / 512 / 512 == p / 512 / 512 + 0x4_0000 * k;
    assert q / 512 / 512 / 512 == p / 512 / 512 / 512 + 512 * k;
  }

  lemma RootPrefix(page: nat)
    requires page < PAGES
    ensures Prefix(page, 4) == 0
  {
    assert page == PageOf(4096 * page);
    IndicesOfPage(4096 * page);
  }

  // --- What the tables mean -----------------------------------------------------------------

  datatype Option<T> = None | Some(value: T)

  /** What the tree says about one page. */
  datatype Mapping = Mapping(frame: nat, writable: bool, user: bool)

  function Decode(e: nat): Mapping {
    Mapping(FrameOf(e), Writable(e), User(e))
  }

  /** The finite map from pages to mappings that a tree of tables stands for. */
  ghost function View(frames: map<nat, Frame>, root: nat): map<nat, Mapping> {
    map p: nat | p < PAGES && Present(Leaf(frames, root, 4, p)) :: Decode(Leaf(frames, root, 4, p))
  }

  ghost predicate SameLeaves(f: map<nat, Frame>, g: map<nat, Frame>, root: nat) {
    forall p: nat :: p < PAGES ==> Leaf(g, root, 4, p) == Leaf(f, root, 4, p)
  }

  /** Every byte of every data frame of `own` is the same in `f` and `g`. */
  ghost predicate DataSame(f: map<nat, Frame>, g: map<nat, Frame>, own: map<nat, Owner>) {
    forall d, a: nat :: d in own && own[d].Data? && d <= a < d + FRAME ==> ByteAt(g, a) == ByteAt(f, a)
  }

  ghost predicate Extends(own: map<nat, Owner>, own': map<nat, Owner>) {
    forall f :: f in own ==> f in own' && own'[f] == own[f]
  }

  ghost predicate RootFits(own: map<nat, Owner>, root: nat) {
    root in own && own[root] == Table(4, 0)
  }

  /** One missing table of the path to `page` is hung into its slot. */
  lemma GraftOnPath(f: map<nat, Frame>, g: map<nat, Frame>, own: map<nat, Owner>, next: nat, root: nat,
                    page: nat, k: nat, t: nat)
    requires WellFormed(f, own, next) && RootFits(own, root) && page < PAGES && 1 < k <= 4
    requires Through(f, root, 4, page, k, t) && !Present(Entry(f, t, Index(page, k)))
    requires 0 < next && next + FRAME <= PHYS_LIMIT
    requires next % 4096 == 0
    requires EntrySet(f, g, t, Index(page, k), MakeEntry(next, true, true))
    ensures t in own && own[t] == Table(k, Prefix(page, k)) && next !in own
    ensures WellFormed(g, own[next := Table(k - 1, Prefix(page, k - 1))], next + FRAME)
    ensures Through(g, root, 4, page, k - 1, next)
    ensures SameLeaves(f, g, root)
    ensures DataSame(f, g, own)
  {
    hide FrameOf, Entry, Prefix, Index, Child, Present, Writable, User, MakeEntry, EntrySet, WellFormed, Leaf, Through;
    var i := Index(page, k);
    RootPrefix(page);
    ThroughOwned(f, own, next, root, 4, page, k, t);
    SlotEmpty(f, own, next, t, k, page);
    Graft(f, g, own, next, t, i);
    ThroughKept(f, g, own, next, root, 4, page, k, t, i, MakeEntry(next, true, true));
    TableAligned(f, own, next, t);
    EntryAfter(f, g, t, i, MakeEntry(next, true, true), t, i);
    ThroughNext(g, root, 4, page, k, t);
    forall p: nat | p < PAGES
      ensures Leaf(g, root, 4, p) == Leaf(f, root, 4, p)
    {
      RootPrefix(p);
      FreshIsZero(f, own, next);
      LeafGrafted(f, g, own, next, root, 4, p, t, i, next);
    }
    TableStoreKeepsData(f, g, own, next, t, i, MakeEntry(next, true, true));
  }

  lemma SlotEmpty(f: map<nat, Frame>, own: map<nat, Owner>, next: nat, t: nat, k: nat, page: nat)
    requires WellFormed(f, own, next) && k >= 1 && t in own && own[t] == Table(k, Prefix(page, k))
    ensures !Present(Entry(f, t, Index(page, k))) ==> Entry(f, t, Index(page, k)) == 0
  {
    hide FrameOf, Entry, Prefix, Index, Child, Present, WellFormed;
    Descend(f, own, next, t, k, page);
  }

  lemma FreshIsZero(f: map<nat, Frame>, own: map<nat, Owner>, next: nat)
    requires WellFormed(f, own, next)
    ensures next % 4096 == 0 && ZeroFrom(f, next) && next !in own
  {
  }

  lemma TableStoreKeepsData(f: map<nat, Frame>, g: map<nat, Frame>, own: map<nat, Owner>, next: nat,
                            t: nat, i: nat, e: nat)
    requires WellFormed(f, own, next) && t in own && own[t].Table? && i < FAN
    requires EntrySet(f, g, t, i, e)
    ensures DataSame(f, g, own)
  {
    hide WellFormed, ByteAt, ToLe;
    TableAligned(f, own, next, t);
    forall d, a: nat | d in own && own[d].Data? && d <= a < d + FRAME
      ensures ByteAt(g, a) == ByteAt(f, a)
    {
      TableAligned(f, own, next, d);
      FramesApart(d, t);
    }
  }

  /** The leaf entry of `page` is set in the leaf table its walk has reached. */
  lemma LeafOnPath(f: map<nat, Frame>, g: map<nat, Frame>, own: map<nat, Owner>, next: nat, root: nat,
                   page: nat, t: nat, e: nat)
    requires WellFormed(f, own, next) && RootFits(own, root) && page < PAGES
    requires Through(f, root, 4, page, 1, t) && EntrySet(f, g, t, Index(page, 1), e)
    requires e == 0 || (Present(e) && FrameOf(e) in own && own[FrameOf(e)] == Data(page))
    ensures WellFormed(g, own, next)
    ensures forall p: nat :: p < PAGES ==> Leaf(g, root, 4, p) == if p == page then e else Leaf(f, root, 4, p)
    ensures DataSame(f, g, own)
    ensures View(g, root) == if e == 0 then View(f, root) - {page} else View(f, root)[page := Decode(e)]
  {
    hide FrameOf, Entry, Prefix, Index, Child, Writable, User, EntrySet, WellFormed, Leaf, Through, Decode;
    var i := Index(page, 1);
    RootPrefix(page);
    ThroughOwned(f, own, next, root, 4, page, 1, t);
    EntryKeeps(f, g, own, next, t, i, e);
    forall p: nat | p < PAGES
      ensures Leaf(g, root, 4, p) == if p == page then e else Leaf(f, root, 4, p)
    {
      RootPrefix(p);
      LeafStored(f, g, own, next, root, 4, p, t, page, e);
    }
    TableStoreKeepsData(f, g, own, next, t, i, e);
  }

  /** What `resolve` must answer for a linear address. */
  function Resolved(frames: map<nat, Frame>, root: nat, lin: nat): Option<nat> {
    var e := Leaf(frames, root, 4, PageOf(lin));
    if Present(e) then Some(FrameOf(e) + lin % 4096) else None
  }

  lemma EntryIs(f: map<nat, Frame>, table: nat, i: nat)
    ensures Entry(f, table, i) == WordAt(f, table + i * 8)
  {
  }

  lemma LeafStep(f: map<nat, Frame>, t: nat, l: nat, page: nat)
    requires l >= 1
    ensures var e := Entry(f, t, Index(page, l));
            Leaf(f, t, l, page) == if l == 1 then e else if Present(e) then Leaf(f, FrameOf(e), l - 1, page) else 0
  {
  }

  lemma EntrySetVia(f: map<nat, Frame>, f': map<nat, Frame>, g: map<nat, Frame>, t: nat, i: nat, e: nat)
    requires SameBytes(f, f') && e < WORD && Stored(f', g, t + i * 8, ToLe(e, 8))
    ensures EntrySet(f, g, t, i, e)
  {
    hide ByteAt, ToLe;
  }

  lemma SameAsItself(f: map<nat, Frame>)
    ensures SameBytes(f, f)
  {
  }

  lemma OwnedIsFrame(f: map<nat, Frame>, own: map<nat, Owner>, next: nat, d: nat)
    requires WellFormed(f, own, next) && d in own
    ensures d < PHYS_LIMIT && d % 4096 == 0 && FrameOf(d) == d
  {
    FrameField(d / 4096, 0);
  }

  /** The page tables and what they live in: memory, the owner of each frame, the frame cursor and the
      frame of the top-level table. */
  datatype Tables = Tables(frames: map<nat, Frame>, own: map<nat, Owner>, next: nat, root: nat) {
    ghost predicate Good() {
      WellFormed(frames, own, next) && RootFits(own, root)
    }

    ghost function Pages(): map<nat, Mapping> {
      View(frames, root)
    }
  }

  /** `b` has the data of `a`, and no data frame that `a` does not have. */
  ghost predicate DataKept(a: Tables, b: Tables) {
    && b.root == a.root && a.next <= b.next && Extends(a.own, b.own) && DataSame(a.frames, b.frames, a.own)
    && forall d :: d in b.own && b.own[d].Data? ==> d in a.own
  }

  /** Where `set_pte` stands after some of its levels: the walk to `page` has reached table `t` of
      level `k`, tables may have been added, and nothing else has changed since `a`. */
  ghost predicate OnPath(a: Tables, b: Tables, page: nat, k: nat, t: nat)
    requires 1 <= k <= 4
  {
    && b.Good() && DataKept(a, b) && SameLeaves(a.frames, b.frames, a.root)
    && (Present(Leaf(a.frames, a.root, 4, page)) ==> b.next == a.next)
    && Through(b.frames, b.root, 4, page, k, t)
  }

  lemma PathStart(a: Tables, page: nat)
    requires a.Good()
    ensures OnPath(a, a, page, 4, a.root)
  {
    hide WellFormed, Leaf;
  }

  /** A level whose table is there. */
  lemma PathDown(a: Tables, b: Tables, page: nat, k: nat, t: nat)
    requires 1 < k <= 4 && OnPath(a, b, page, k, t) && Present(Entry(b.frames, t, Index(page, k)))
    ensures OnPath(a, b, page, k - 1, FrameOf(Entry(b.frames, t, Index(page, k))))
  {
    hide WellFormed, Leaf, FrameOf, Entry, Index, Present, Through, DataKept;
    ThroughNext(b.frames, b.root, 4, page, k, t);
  }

  /** `b` with the frame at its cursor made the table of level `k - 1` for `page`. */
  function WithTable(b: Tables, g: map<nat, Frame>, page: nat, k: nat): Tables
    requires k >= 1
  {
    b.(frames := g, own := b.own[b.next := Table(k - 1, Prefix(page, k - 1))], next := b.next + FRAME)
  }

  /** A level whose table had to be allocated. */
  lemma PathGrown(a: Tables, b: Tables, page: nat, k: nat, t: nat, g: map<nat, Frame>)
    requires 1 < k <= 4 && OnPath(a, b, page, k, t) && page < PAGES
    requires !Present(Entry(b.frames, t, Index(page, k)))
    requires 0 < b.next && b.next + FRAME <= PHYS_LIMIT && b.next % 4096 == 0
    requires EntrySet(b.frames, g, t, Index(page, k), MakeEntry(b.next, true, true))
    ensures OnPath(a, WithTable(b, g, page, k), page, k - 1, b.next)
  {
    hide WellFormed, Leaf, FrameOf, Entry, Index, Present, Through, MakeEntry, EntrySet, ByteAt, Prefix;
    GraftOnPath(b.frames, g, b.own, b.next, b.root, page, k, t);
    RootPrefix(page);
    ThroughOwned(b.frames, b.own, b.next, b.root, 4, page, k, t);
    LeafMissing(b.frames, t, k, page);
  }

  lemma PathMissing(a: Tables, b: Tables, page: nat, k: nat, t: nat)
    requires 1 < k <= 4 && OnPath(a, b, page, k, t) && page < PAGES && !Present(Entry(b.frames, t, Index(page, k)))
    ensures page !in a.Pages()
  {
    hide WellFormed, Leaf, FrameOf, Entry, Index, Present, Through, ByteAt, Prefix;
    RootPrefix(page);
    ThroughOwned(b.frames, b.own, b.next, b.root, 4, page, k, t);
    LeafMissing(b.frames, t, k, page);
  }

  lemma LeafMissing(f: map<nat, Frame>, t: nat, k: nat, page: nat)
    requires k > 1 && !Present(Entry(f, t, Index(page, k)))
    ensures Leaf(f, t, k, page) == 0 && !Present(0)
  {
  }

  /** What `set_pte` does: `page` now maps as `m`, tables may have been added for it, and nothing else
      has changed. */
  ghost predicate PteSet(a: Tables, b: Tables, page: nat, m: Mapping) {
    && b.Good() && DataKept(a, b)
    && (page in a.Pages() ==> b.next == a.next)
    && b.Pages() == a.Pages()[page := m]
  }

  /** The leaf store at the end of the path. */
  lemma PathEnd(a: Tables, b: Tables, page: nat, t: nat, g: map<nat, Frame>, m: Mapping)
    requires OnPath(a, b, page, 1, t) && page < PAGES
    requires m.frame in b.own && b.own[m.frame] == Data(page) && m.frame % 4096 == 0
    requires EntrySet(b.frames, g, t, Index(page, 1), MakeEntry(m.frame, m.writable, m.user))
    ensures PteSet(a, b.(frames := g), page, m)
  {
    hide WellFormed, Leaf, FrameOf, Entry, Index, Through, MakeEntry, EntrySet, ByteAt, Writable, User;
    OwnedIsFrame(b.frames, b.own, b.next, m.frame);
    NullEntry();
    LeafOnPath(b.frames, g, b.own, b.next, b.root, page, t, MakeEntry(m.frame, m.writable, m.user));
    SameView(a.frames, b.frames, a.root);
    SubOwn(b.frames, g, b.own, a.own);
  }

  lemma PathOwns(a: Tables, b: Tables, page: nat, t: nat, phys: nat)
    requires OnPath(a, b, page, 1, t) && phys in a.own && a.own[phys] == Data(page)
    ensures phys in b.own && b.own[phys] == Data(page) && FrameOf(phys) == phys && phys % 4096 == 0
  {
    OwnedIsFrame(b.frames, b.own, b.next, phys);
  }

  lemma SameView(f: map<nat, Frame>, g: map<nat, Frame>, root: nat)
    requires SameLeaves(f, g, root)
    ensures View(g, root) == View(f, root)
  {
    hide Leaf, Decode, Present;
  }

  lemma SubOwn(f: map<nat, Frame>, g: map<nat, Frame>, own: map<nat, Owner>, own0: map<nat, Owner>)
    requires Extends(own0, own) && DataSame(f, g, own)
    ensures DataSame(f, g, own0)
  {
    hide ByteAt;
  }

  // --- Ranges of pages ------------------------------------------------------------------------

  /** The pages of the linear page numbers `lo` to `hi`, which wrap at 2^36. */
  ghost function PagesIn(lo: nat, hi: nat): set<nat> {
    set k: nat | lo <= k < hi :: k % 0x10_0000_0000
  }

  lemma PagesInStep(lo: nat, hi: nat)
    requires lo <= hi
    ensures PagesIn(lo, hi + 1) == PagesIn(lo, hi) + {hi % 0x10_0000_0000}
    ensures PagesIn(lo, lo) == {}
  {
    forall p | p in PagesIn(lo, hi) + {hi % 0x10_0000_0000}
      ensures p in PagesIn(lo, hi + 1)
    {
      if p == hi % 0x10_0000_0000 {
        assert lo <= hi < hi + 1;
      } else {
        var k: nat :| lo <= k < hi && p == k % 0x10_0000_0000;
        assert lo <= k < hi + 1;
      }
    }
  }

  /** Below 2^48 the pages of a range are its page numbers. */
  lemma PagesInPlain(lo: nat, hi: nat, p: nat)
    requires hi <= 0x10_0000_0000
    ensures p in PagesIn(lo, hi) <==> lo <= p < hi
  {
    if lo <= p < hi {
      assert p == p % 0x10_0000_0000;
    }
    if p in PagesIn(lo, hi) {
      var k: nat :| lo <= k < hi && p == k % 0x10_0000_0000;
    }
  }

  /** `v1` is `v0` with the pages of `pages` mapped: those already mapped keep their frame and widen
      their write permission, the others get frames from `first` up. */
  ghost predicate MapsPages(v0: map<nat, Mapping>, v1: map<nat, Mapping>, pages: set<nat>,
                            writable: bool, user: bool, first: nat) {
    && v1.Keys == v0.Keys + pages
    && forall p :: p in v1 ==>
         if p !in pages then v1[p] == v0[p]
         else if p in v0 then v1[p] == Mapping(v0[p].frame, v0[p].writable || writable, user)
         else v1[p].frame >= first && v1[p].writable == writable && v1[p].user == user
  }

  /** Data frames handed out from `first` up hold zeros. */
  ghost predicate FreshZero(f: map<nat, Frame>, own: map<nat, Owner>, first: nat) {
    forall d, a: nat :: d in own && own[d].Data? && first <= d <= a < d + FRAME ==> ByteAt(f, a) == 0
  }

  /** The state `b` of `map_range` once the pages of `pages` are mapped, since `a`: old data is where it
      was, and new data frames are zero. */
  ghost predicate MapProgress(a: Tables, b: Tables, pages: set<nat>, writable: bool, user: bool) {
    && b.root == a.root && a.next <= b.next && b.Good() && Extends(a.own, b.own)
    && (forall d :: d in a.own ==> d < a.next)
    && MapsPages(a.Pages(), b.Pages(), pages, writable, user, a.next)
    && DataSame(a.frames, b.frames, a.own)
    && (forall d :: d in b.own && b.own[d].Data? && d !in a.own ==> d >= a.next)
    && FreshZero(b.frames, b.own, a.next)
  }

  lemma MapStart(a: Tables, writable: bool, user: bool)
    requires a.Good()
    ensures MapProgress(a, a, {}, writable, user)
  {
    hide View;
  }

  lemma {:induction false} LeafSameBytes(f: map<nat, Frame>, g: map<nat, Frame>, table: nat, l: nat, page: nat)
    requires SameBytes(f, g) && l >= 1
    ensures Leaf(g, table, l, page) == Leaf(f, table, l, page)
    decreases l
  {
    hide ByteAt, FrameOf, Index, Present;
    EntrySame(f, g, table, Index(page, l));
    if l > 1 {
      LeafSameBytes(f, g, FrameOf(Entry(f, table, Index(page, l))), l - 1, page);
    }
  }

  /** Creating zero frames changes nothing that can be read. */
  lemma SameBytesKeeps(f: map<nat, Frame>, g: map<nat, Frame>, own: map<nat, Owner>, next: nat, root: nat)
    requires WellFormed(f, own, next) && SameBytes(f, g)
    ensures WellFormed(g, own, next) && View(g, root) == View(f, root)
    ensures forall own' :: DataSame(f, g, own')
  {
    hide ByteAt, FrameOf, Leaf, Present, Entry, EntryFits, Decode;
    forall t | t in own && own[t].Table?
      ensures TableFits(g, own, t)
    {
      assert TableFits(f, own, t);
      forall i | 0 <= i < FAN
        ensures Entry(g, t, i) == Entry(f, t, i)
      {
        EntrySame(f, g, t, i);
      }
    }
    forall p: nat | p < PAGES
      ensures Leaf(g, root, 4, p) == Leaf(f, root, 4, p)
    {
      LeafSameBytes(f, g, root, 4, p);
    }
  }

  /** `a` with the frame at its cursor handed out as the data of `page`. */
  function WithData(a: Tables, g: map<nat, Frame>, page: nat): Tables {
    a.(frames := g, own := a.own[a.next := Data(page)], next := a.next + FRAME)
  }

  /** A fresh data frame for `page`: zeroed, owned, and not yet mapped. */
  lemma DataAllocated(a: Tables, g: map<nat, Frame>, page: nat)
    requires a.Good() && SameBytes(a.frames, g) && 0 < a.next && a.next + FRAME <= PHYS_LIMIT
    ensures var b := WithData(a, g, page);
            && a.next !in a.own && b.Good() && b.Pages() == a.Pages()
            && DataSame(a.frames, g, a.own) && a.next in b.own && b.own[a.next] == Data(page)
    ensures forall x: nat :: a.next <= x ==> ByteAt(g, x) == 0
    ensures forall d :: d in a.own ==> d < a.next
  {
    hide View, FrameOf, TableFits, DataSame;
    SameBytesKeeps(a.frames, g, a.own, a.next, a.root);
    FreshData(g, a.own, a.next, page);
  }

  lemma RemapOne(v0: map<nat, Mapping>, v: map<nat, Mapping>, pages: set<nat>, writable: bool, user: bool,
                 first: nat, page: nat)
    requires MapsPages(v0, v, pages, writable, user, first) && page in v
    ensures MapsPages(v0, v[page := Mapping(v[page].frame, v[page].writable || writable, user)], pages + {page},
                      writable, user, first)
  {
  }

  lemma MapOneMore(v0: map<nat, Mapping>, v: map<nat, Mapping>, pages: set<nat>, writable: bool, user: bool,
                   first: nat, page: nat, frame: nat)
    requires MapsPages(v0, v, pages, writable, user, first) && page !in v && frame >= first
    ensures MapsPages(v0, v[page := Mapping(frame, writable, user)], pages + {page}, writable, user, first)
  {
  }

  lemma FreshZeroKept(f: map<nat, Frame>, g: map<nat, Frame>, own: map<nat, Owner>, own': map<nat, Owner>, first: nat)
    requires FreshZero(f, own, first) && DataSame(f, g, own) && Extends(own, own')
    requires forall d :: d in own' && own'[d].Data? ==> d in own
    ensures FreshZero(g, own', first)
  {
    hide ByteAt;
  }

  lemma DataSameTwice(f: map<nat, Frame>, g: map<nat, Frame>, h: map<nat, Frame>,
                      own: map<nat, Owner>, own': map<nat, Owner>)
    requires DataSame(f, g, own) && DataSame(g, h, own') && Extends(own, own')
    ensures DataSame(f, h, own)
  {
    hide ByteAt;
  }

  lemma MapExisting(a: Tables, b: Tables, pages: set<nat>, writable: bool, user: bool, page: nat, c: Tables)
    requires MapProgress(a, b, pages, writable, user) && page in b.Pages()
    requires var m := b.Pages()[page]; PteSet(b, c, page, Mapping(m.frame, m.writable || writable, user))
    ensures MapProgress(a, c, pages + {page}, writable, user)
  {
    hide View, WellFormed, ByteAt, DataSame, FreshZero, MapsPages;
    RemapOne(a.Pages(), b.Pages(), pages, writable, user, a.next, page);
    DataSameTwice(a.frames, b.frames, c.frames, a.own, b.own);
    FreshZeroKept(b.frames, c.frames, b.own, c.own, a.next);
  }

  lemma FreshZeroGrown(f: map<nat, Frame>, g: map<nat, Frame>, own: map<nat, Owner>, own': map<nat, Owner>,
                       first: nat, next: nat)
    requires FreshZero(f, own, first) && DataSame(f, g, own) && Extends(own, own')
    requires forall d :: d in own' && own'[d].Data? ==> d in own || d == next
    requires forall a: nat :: next <= a < next + FRAME ==> ByteAt(g, a) == 0
    ensures FreshZero(g, own', first)
  {
    hide ByteAt;
  }

  lemma ZeroKept(f: map<nat, Frame>, g: map<nat, Frame>, own: map<nat, Owner>, d: nat)
    requires DataSame(f, g, own) && d in own && own[d].Data?
    requires forall a: nat :: d <= a ==> ByteAt(f, a) == 0
    ensures forall a: nat :: d <= a < d + FRAME ==> ByteAt(g, a) == 0
  {
    hide ByteAt;
  }

  /** The unmapped-page branch of `map_range`: allocate (`b` to `WithData(b, g, page)`), then set the entry. */
  lemma MapFresh(a: Tables, b: Tables, pages: set<nat>, writable: bool, user: bool, page: nat, g: map<nat, Frame>,
                 c: Tables)
    requires MapProgress(a, b, pages, writable, user) && page !in b.Pages() && SameBytes(b.frames, g)
    requires 0 < b.next && b.next + FRAME <= PHYS_LIMIT
    requires PteSet(WithData(b, g, page), c, page, Mapping(b.next, writable, user))
    ensures MapProgress(a, c, pages + {page}, writable, user)
  {
    hide View, WellFormed, ByteAt, MapsPages, FreshZero, SameBytes, DataSame, RootFits;
    var d := WithData(b, g, page);
    DataAllocated(b, g, page);
    MapOneMore(a.Pages(), b.Pages(), pages, writable, user, a.next, page, b.next);
    ZeroKept(g, c.frames, d.own, b.next);
    DataSameTwice(b.frames, g, c.frames, b.own, d.own);
    DataSameTwice(a.frames, b.frames, c.frames, a.own, b.own);
    FreshZeroGrown(b.frames, c.frames, b.own, c.own, a.next, b.next);
  }

  lemma RangeAligned(start: u64, len: u64)
    ensures PageDown(start) <= RangeEnd(start, len) <= U64_MAX - 4095
    ensures RangeEnd(start, len) == 4096 * (RangeEnd(start, len) / 4096)
    ensures PageDown(start) == 4096 * (start / 4096)
  {
  }

  lemma PageOfMultiple(n: nat)
    ensures PageOf(4096 * n) == n % 0x10_0000_0000
  {
  }

  lemma WidenedProt(prot: nat)
    ensures !Writes(prot) ==> Writes(prot + PROT_WRITE)
  {
  }

  /** `resolve` reads the view: present exactly for mapped pages, and inside the page's frame. */
  lemma ResolvedMeans(f: map<nat, Frame>, own: map<nat, Owner>, next: nat, root: nat, lin: nat)
    requires WellFormed(f, own, next) && RootFits(own, root)
    ensures Resolved(f, root, lin).Some? <==> PageOf(lin) in View(f, root)
    ensures PageOf(lin) in View(f, root) ==>
              var m := View(f, root)[PageOf(lin)];
              && m == Decode(Leaf(f, root, 4, PageOf(lin)))
              && m.frame in own && own[m.frame] == Data(PageOf(lin))
              && Resolved(f, root, lin).value == m.frame + lin % 4096
              && PageDown(m.frame + lin % 4096) == m.frame
  {
    hide FrameOf, Leaf, Present, PageOf, WellFormed, Writable, User, Prefix;
    RootPrefix(PageOf(lin));
    LeafOwned(f, own, next, root, 4, PageOf(lin));
    FrameSplit(FrameOf(Leaf(f, root, 4, PageOf(lin))), lin % 4096);
  }

  lemma FrameSplit(frame: nat, off: nat)
    requires frame % 4096 == 0 && off < 4096
    ensures PageDown(frame + off) == frame
  {
  }

  /** No two pages share a frame, and none maps a table. */
  lemma FramesDistinct(f: map<nat, Frame>, own: map<nat, Owner>, next: nat, root: nat, p: nat, q: nat)
    requires WellFormed(f, own, next) && RootFits(own, root) && p in View(f, root) && q in View(f, root)
    ensures View(f, root)[p].frame == View(f, root)[q].frame ==> p == q
    ensures forall t :: t in own && own[t].Table? ==> View(f, root)[p].frame != t
  {
    hide FrameOf, Leaf, Present, WellFormed, Writable, User, Prefix, RootFits;
    PageOfMultiple(p);
    PageOfMultiple(q);
    ResolvedMeans(f, own, next, root, 4096 * p);
    ResolvedMeans(f, own, next, root, 4096 * q);
  }

  /** `protect` on a set of pages: the mapped ones get exactly this write permission. */
  function ProtectPages(v: map<nat, Mapping>, pages: set<nat>, writable: bool): map<nat, Mapping> {
    map p | p in v :: if p in pages then Mapping(v[p].frame, writable, true) else v[p]
  }

  lemma ProtectOne(v: map<nat, Mapping>, pages: set<nat>, writable: bool, page: nat)
    ensures var w := ProtectPages(v, pages, writable);
            if page in v then
              ProtectPages(v, pages + {page}, writable) == w[page := Mapping(w[page].frame, writable, true)]
            else ProtectPages(v, pages + {page}, writable) == w
  {
  }

  /** Tables only were touched since `a`, no data frame was handed out, and the view became `v`. */
  ghost predicate Remapped(a: Tables, b: Tables, v: map<nat, Mapping>) {
    b.Good() && DataKept(a, b) && b.next == a.next && b.Pages() == v
  }

  lemma RemapStart(a: Tables, writable: bool)
    requires a.Good()
    ensures Remapped(a, a, a.Pages())
    ensures ProtectPages(a.Pages(), {}, writable) == a.Pages() == a.Pages() - {}
  {
    hide WellFormed, View;
  }

  lemma RemapStep(a: Tables, b: Tables, v: map<nat, Mapping>, page: nat, m: Mapping, c: Tables)
    requires Remapped(a, b, v) && page in v && PteSet(b, c, page, m)
    ensures Remapped(a, c, v[page := m])
  {
    hide WellFormed, View, ByteAt, DataSame;
    DataSameTwice(a.frames, b.frames, c.frames, a.own, b.own);
  }

  /** `unmap` of one page whose leaf table exists. */
  lemma UnmapStep(a: Tables, b: Tables, v: map<nat, Mapping>, page: nat, t: nat, g: map<nat, Frame>)
    requires Remapped(a, b, v) && page < PAGES
    requires Through(b.frames, b.root, 4, page, 1, t) && EntrySet(b.frames, g, t, Index(page, 1), 0)
    ensures Remapped(a, b.(frames := g), v - {page})
  {
    hide WellFormed, View, ByteAt, DataSame, Through, EntrySet, Index;
    LeafOnPath(b.frames, g, b.own, b.next, b.root, page, t, 0);
    SubOwn(b.frames, g, b.own, a.own);
    DataSameTwice(a.frames, b.frames, g, a.own, b.own);
  }

  lemma ThroughStart(f: map<nat, Frame>, root: nat, page: nat)
    ensures Through(f, root, 4, page, 4, root)
  {
  }

  /** A walk that stops early is an unmapped page. */
  lemma MissingLevel(b: Tables, page: nat, k: nat, t: nat)
    requires b.Good() && page < PAGES && 1 < k <= 4
    requires Through(b.frames, b.root, 4, page, k, t) && !Present(Entry(b.frames, t, Index(page, k)))
    ensures page !in b.Pages()
  {
    hide WellFormed, View, Through, Entry, Index, Leaf, Present;
    RootPrefix(page);
    ThroughOwned(b.frames, b.own, b.next, b.root, 4, page, k, t);
    LeafMissing(b.frames, t, k, page);
    NotMapped(b.frames, b.root, page);
  }

  lemma ProtectKeeps(v: map<nat, Mapping>, pages: set<nat>, writable: bool)
    ensures ProtectPages(v, pages, writable).Keys == v.Keys
  {
  }

  lemma NotMapped(f: map<nat, Frame>, root: nat, page: nat)
    requires Leaf(f, root, 4, page) == 0
    ensures page !in View(f, root)
  {
    NullEntry();
  }

  lemma RemoveMore(v: map<nat, Mapping>, pages: set<nat>, page: nat)
    ensures v - (pages + {page}) == v - pages - {page}
    ensures page !in v - pages ==> v - (pages + {page}) == v - pages
  {
  }
}
