/** Multi-level page tables held in the physical memory they map.

    The separation invariant is a ghost owner for every allocated frame: a frame is a table for one
    level and one address prefix, or the data of one page. Because a frame has one owner, no table
    has two parents and no two pages share a frame. */
module PageTree {
  import opened PhysMemory

  /** Entries in a table. */
  const FAN: nat := 512

  /** Exclusive end of the frame addresses an entry can hold. */
  const PHYS_LIMIT: nat := 0x10_0000_0000_0000

  // --- Entries -----------------------------------------------------------------------

  predicate Present(e: nat) {
    e % 2 == 1
  }

  predicate Writable(e: nat) {
    e / 2 % 2 == 1
  }

  predicate User(e: nat) {
    e / 4 % 2 == 1
  }

  /** Bits 12 to 51 of an entry: the frame it points at. */
  function FrameOf(e: nat): (f: nat)
    ensures f % 4096 == 0
  {
    e % 0x10_0000_0000_0000 / 4096 * 4096
  }

  /** A present entry for `frame`, with its low flag bits, as a 64-bit word. */
  function MakeEntry(frame: nat, writable: bool, user: bool): (e: nat)
    requires frame % 4096 == 0
    ensures e < WORD
    ensures frame < PHYS_LIMIT ==>
              Present(e) && FrameOf(e) == frame && Writable(e) == writable && User(e) == user
  {
    var flags := 1 + (if writable then 2 else 0) + (if user then 4 else 0);
    if frame < PHYS_LIMIT then
      EntryFields(frame / 4096, flags);
      frame + flags
    else (frame + flags) % WORD
  }

  lemma EntryFields(n: nat, flags: nat)
    requires 4096 * n < PHYS_LIMIT && flags < 8
    ensures FrameOf(4096 * n + flags) == 4096 * n
    ensures Present(4096 * n + flags) == Present(flags)
    ensures Writable(4096 * n + flags) == Writable(flags)
    ensures User(4096 * n + flags) == User(flags)
  {
    hide FrameOf;
    FrameField(n, flags);
    EvenPart(2048 * n, flags);
    EvenPart(1024 * n, flags / 2);
    EvenPart(512 * n, flags / 4);
    Quarter(1024 * n, flags);
  }

  lemma EvenPart(m: nat, f: nat)
    ensures (2 * m + f) % 2 == f % 2 && (2 * m + f) / 2 == m + f / 2
  {
  }

  lemma Quarter(m: nat, f: nat)
    ensures (4 * m + f) / 4 == m + f / 4
  {
  }

  lemma FrameField(n: nat, flags: nat)
    requires 4096 * n < PHYS_LIMIT && flags < 4096
    ensures FrameOf(4096 * n + flags) == 4096 * n
  {
    var e := 4096 * n + flags;
    assert n < 0x100_0000_0000;
    assert e < PHYS_LIMIT;
    assert e / 4096 == n;
  }

  /** Entry `i` of the table at `table`. */
  function Entry(frames: map<nat, Frame>, table: nat, i: nat): nat {
    WordAt(frames, table + 8 * i)
  }

  // --- Addresses -----------------------------------------------------------------------

  /** The prefix that entry `i` of a table adds to the table's own. */
  function Child(prefix: nat, i: nat): nat {
    prefix * 512 + i
  }

  /** What is left of a page number above `l` levels of tables. */
  function Prefix(page: nat, l: nat): (p: nat)
    ensures l == 0 ==> p == page
  {
    if l == 0 then page else Prefix(page, l - 1) / 512
  }

  /** The index of `page` in its table of level `l` (level 1 holds the leaves). */
  function Index(page: nat, l: nat): (i: nat)
    requires l >= 1
    ensures i < FAN
    ensures Prefix(page, l - 1) == Child(Prefix(page, l), i)
  {
    Prefix(page, l - 1) % 512
  }

  // --- The walk ---------------------------------------------------------------------------

  /** The leaf entry for `page` below a table of level `l`, 0 where a level is missing. */
  function Leaf(frames: map<nat, Frame>, table: nat, l: nat, page: nat): nat
    requires l >= 1
    decreases l
  {
    var e := Entry(frames, table, Index(page, l));
    if l == 1 then e
    else if Present(e) then Leaf(frames, FrameOf(e), l - 1, page)
    else 0
  }

  /** The table of level `k` the walk for `page` goes through, if it gets there. */
  ghost predicate Through(frames: map<nat, Frame>, table: nat, l: nat, page: nat, k: nat, t: nat)
    requires 1 <= k <= l
    decreases l
  {
    if k == l then t == table
    else
      var e := Entry(frames, table, Index(page, l));
      Present(e) && Through(frames, FrameOf(e), l - 1, page, k, t)
  }

  // --- The separation invariant --------------------------------------------------------------

  datatype Owner = Table(level: nat, prefix: nat) | Data(page: nat)

  ghost predicate EntryFits(own: map<nat, Owner>, l: nat, prefix: nat, i: nat, e: nat) {
    if !Present(e) then e == 0
    else
      && FrameOf(e) in own
      && own[FrameOf(e)] == (if l <= 1 then Data(Child(prefix, i)) else Table(l - 1, Child(prefix, i)))
      && (l > 1 ==> Writable(e) && User(e))
  }

  ghost predicate TableFits(frames: map<nat, Frame>, own: map<nat, Owner>, t: nat) {
    t in own && own[t].Table? && own[t].level >= 1 &&
    forall i :: 0 <= i < FAN ==> EntryFits(own, own[t].level, own[t].prefix, i, Entry(frames, t, i))
  }

  ghost predicate Allocated(own: map<nat, Owner>, next: nat) {
    && next % 4096 == 0 && next <= PHYS_LIMIT
    && forall f :: f in own ==> f % 4096 == 0 && FRAME <= f < next
  }

  ghost predicate ZeroFrom(frames: map<nat, Frame>, next: nat) {
    forall a: nat :: a >= next ==> ByteAt(frames, a) == 0
  }

  ghost predicate WellFormed(frames: map<nat, Frame>, own: map<nat, Owner>, next: nat) {
    && Allocated(own, next)
    && ZeroFrom(frames, next)
    && forall t :: t in own && own[t].Table? ==> TableFits(frames, own, t)
  }

  // --- Stores ---------------------------------------------------------------------------------

  /** `g` is `f` with entry `i` of the table at `t` set to `e`. */
  ghost predicate EntrySet(f: map<nat, Frame>, g: map<nat, Frame>, t: nat, i: nat, e: nat) {
    e < WORD && Stored(f, g, t + 8 * i, ToLe(e, 8))
  }

  lemma EntryAfter(f: map<nat, Frame>, g: map<nat, Frame>, t: nat, i: nat, e: nat, t': nat, i': nat)
    requires EntrySet(f, g, t, i, e) && i < FAN && i' < FAN
    requires t % 4096 == 0 && t' % 4096 == 0
    ensures Entry(g, t', i') == if t' == t && i' == i then e else Entry(f, t', i')
  {
    hide Stored, ToLe, WordAt;
    if t' == t && i' == i {
      WordStored(f, g, t + 8 * i, e);
    } else {
      if t' != t {
        FramesApart(t, t');
      }
      WordUntouched(f, g, t + 8 * i, ToLe(e, 8), t' + 8 * i');
    }
  }

  lemma FramesApart(a: nat, b: nat)
    requires a % 4096 == 0 && b % 4096 == 0 && a != b
    ensures a + FRAME <= b || b + FRAME <= a
  {
  }

  lemma EntrySame(f: map<nat, Frame>, g: map<nat, Frame>, t: nat, i: nat)
    requires forall a :: t + 8 * i <= a < t + 8 * i + 8 ==> ByteAt(g, a) == ByteAt(f, a)
    ensures Entry(g, t, i) == Entry(f, t, i)
  {
    assert Bytes(g, t + 8 * i, 8) == Bytes(f, t + 8 * i, 8);
  }

  lemma ZeroEntry(f: map<nat, Frame>, t: nat, i: nat)
    requires forall a :: t + 8 * i <= a < t + 8 * i + 8 ==> ByteAt(f, a) == 0
    ensures Entry(f, t, i) == 0
  {
    AllZero(Bytes(f, t + 8 * i, 8));
  }

  lemma {:induction false} AllZero(s: seq<byte>)
    requires forall i :: 0 <= i < |s| ==> s[i] == 0
    ensures FromLe(s) == 0
  {
    if s != [] {
      AllZero(s[1..]);
    }
  }

  /** One step of a walk, under the separation invariant. */
  lemma Descend(f: map<nat, Frame>, own: map<nat, Owner>, next: nat, table: nat, l: nat, page: nat)
    requires WellFormed(f, own, next) && l >= 1
    requires table in own && own[table] == Table(l, Prefix(page, l))
    ensures var e := Entry(f, table, Index(page, l));
            if !Present(e) then e == 0
            else
              && FrameOf(e) in own
              && own[FrameOf(e)] == if l == 1 then Data(page) else Table(l - 1, Prefix(page, l - 1))
  {
    hide FrameOf, Entry, Prefix, Index, Child, Present, Writable, User;
    assert TableFits(f, own, table);
    var i := Index(page, l);
    assert EntryFits(own, l, Prefix(page, l), i, Entry(f, table, i));
  }

  lemma TableAligned(f: map<nat, Frame>, own: map<nat, Owner>, next: nat, t: nat)
    requires WellFormed(f, own, next) && t in own
    ensures t % 4096 == 0 && t + FRAME <= next
  {
  }

  /** A walk only depends on the tables. */
  lemma {:induction false} LeafFrame(f: map<nat, Frame>, g: map<nat, Frame>, own: map<nat, Owner>, next: nat,
                                     table: nat, l: nat, page: nat)
    requires WellFormed(f, own, next) && l >= 1
    requires table in own && own[table] == Table(l, Prefix(page, l))
    requires forall t, i :: t in own && own[t].Table? && 0 <= i < FAN ==> Entry(g, t, i) == Entry(f, t, i)
    ensures Leaf(g, table, l, page) == Leaf(f, table, l, page)
    decreases l
  {
    hide FrameOf, Entry, Prefix, Index, Child, MakeEntry, Present, Writable, User, Stored, EntrySet, WellFormed;
    Descend(f, own, next, table, l, page);
    var i := Index(page, l);
    if l > 1 && Present(Entry(f, table, i)) {
      LeafFrame(f, g, own, next, FrameOf(Entry(f, table, i)), l - 1, page);
    }
  }

  /** A leaf that is present points at the data frame its page owns. */
  lemma {:induction false} LeafOwned(f: map<nat, Frame>, own: map<nat, Owner>, next: nat, table: nat, l: nat, page: nat)
    requires WellFormed(f, own, next) && l >= 1
    requires table in own && own[table] == Table(l, Prefix(page, l))
    ensures var e := Leaf(f, table, l, page);
            if Present(e) then FrameOf(e) in own && own[FrameOf(e)] == Data(page) else e == 0
    decreases l
  {
    hide FrameOf, Entry, Prefix, Index, Child, MakeEntry, Present, Writable, User, Stored, EntrySet, WellFormed;
    Descend(f, own, next, table, l, page);
    var i := Index(page, l);
    if l > 1 && Present(Entry(f, table, i)) {
      LeafOwned(f, own, next, FrameOf(Entry(f, table, i)), l - 1, page);
    }
  }

  /** Storing a leaf changes the walk of that one page. */
  lemma {:induction false} LeafStored(f: map<nat, Frame>, g: map<nat, Frame>, own: map<nat, Owner>, next: nat,
                                      table: nat, l: nat, page: nat, t: nat, target: nat, e: nat)
    requires WellFormed(f, own, next) && l >= 1
    requires table in own && own[table] == Table(l, Prefix(page, l))
    requires t in own && own[t] == Table(1, Prefix(target, 1)) && EntrySet(f, g, t, Index(target, 1), e)
    requires page == target ==> Through(f, table, l, page, 1, t)
    ensures Leaf(g, table, l, page) == if page == target then e else Leaf(f, table, l, page)
    decreases l
  {
    hide FrameOf, Entry, Prefix, Index, Child, MakeEntry, Present, Writable, User, Stored, EntrySet, WellFormed;
    Descend(f, own, next, table, l, page);
    TableAligned(f, own, next, t);
    TableAligned(f, own, next, table);
    var i := Index(page, l);
    EntryAfter(f, g, t, Index(target, 1), e, table, i);
    if l > 1 && Present(Entry(f, table, i)) {
      LeafStored(f, g, own, next, FrameOf(Entry(f, table, i)), l - 1, page, t, target, e);
    }
  }

  /** Hanging a fresh zero table into an empty slot changes no walk. */
  lemma {:induction false} LeafGrafted(f: map<nat, Frame>, g: map<nat, Frame>, own: map<nat, Owner>, next: nat,
                                       table: nat, l: nat, page: nat, t: nat, i: nat, child: nat)
    requires WellFormed(f, own, next) && l >= 1 && next % 4096 == 0 && ZeroFrom(f, next)
    requires table in own && own[table] == Table(l, Prefix(page, l))
    requires t in own && own[t].Table? && i < FAN && Entry(f, t, i) == 0
    requires child == next < PHYS_LIMIT && EntrySet(f, g, t, i, MakeEntry(child, true, true))
    requires own[t].level > 1
    ensures Leaf(g, table, l, page) == Leaf(f, table, l, page)
    decreases l
  {
    hide FrameOf, Entry, Prefix, Index, Child, MakeEntry, Present, Writable, User, Stored, EntrySet, WellFormed;
    Descend(f, own, next, table, l, page);
    TableAligned(f, own, next, t);
    TableAligned(f, own, next, table);
    NullEntry();
    var j := Index(page, l);
    var e := Entry(f, table, j);
    EntryAfter(f, g, t, i, MakeEntry(child, true, true), table, j);
    if l > 1 {
      if t == table && i == j {
        EmptyTable(f, g, t, i, MakeEntry(child, true, true), next, l - 1, page);
      } else if Present(e) {
        LeafGrafted(f, g, own, next, FrameOf(e), l - 1, page, t, i, child);
      }
    }
  }

  lemma NullEntry()
    ensures !Present(0)
  {
  }

  lemma EmptyTable(f: map<nat, Frame>, g: map<nat, Frame>, t: nat, i: nat, e: nat, next: nat, l: nat, page: nat)
    requires ZeroFrom(f, next) && EntrySet(f, g, t, i, e) && l >= 1
    requires t + FRAME <= next && i < FAN
    ensures Leaf(g, next, l, page) == 0
  {
    ZeroEntry(g, next, Index(page, l));
  }

  // --- Where a walk has got to -------------------------------------------------------------------

  lemma {:induction false} ThroughOwned(f: map<nat, Frame>, own: map<nat, Owner>, next: nat,
                                        table: nat, l: nat, page: nat, k: nat, t: nat)
    requires WellFormed(f, own, next) && 1 <= k <= l
    requires table in own && own[table] == Table(l, Prefix(page, l)) && Through(f, table, l, page, k, t)
    ensures t in own && own[t] == Table(k, Prefix(page, k))
    ensures Leaf(f, table, l, page) == Leaf(f, t, k, page)
    decreases l
  {
    hide FrameOf, Entry, Prefix, Index, Child, Present, WellFormed;
    if k < l {
      Descend(f, own, next, table, l, page);
      ThroughOwned(f, own, next, FrameOf(Entry(f, table, Index(page, l))), l - 1, page, k, t);
    }
  }

  lemma {:induction false} ThroughNext(f: map<nat, Frame>, table: nat, l: nat, page: nat, k: nat, t: nat)
    requires 1 < k <= l && Through(f, table, l, page, k, t)
    requires Present(Entry(f, t, Index(page, k)))
    ensures Through(f, table, l, page, k - 1, FrameOf(Entry(f, t, Index(page, k))))
    decreases l
  {
    hide FrameOf, Entry, Prefix, Index, Present;
    if k < l {
      ThroughNext(f, FrameOf(Entry(f, table, Index(page, l))), l - 1, page, k, t);
    }
  }

  /** Setting an entry of the table a walk has reached leaves the way there as it was. */
  lemma {:induction false} ThroughKept(f: map<nat, Frame>, g: map<nat, Frame>, own: map<nat, Owner>, next: nat,
                                       table: nat, l: nat, page: nat, k: nat, t: nat, i: nat, e: nat)
    requires WellFormed(f, own, next) && 1 <= k <= l && i < FAN
    requires table in own && own[table] == Table(l, Prefix(page, l)) && Through(f, table, l, page, k, t)
    requires EntrySet(f, g, t, i, e)
    ensures Through(g, table, l, page, k, t)
    decreases l
  {
    hide FrameOf, Entry, Prefix, Index, Child, Present, WellFormed, EntrySet;
    if k < l {
      Descend(f, own, next, table, l, page);
      ThroughOwned(f, own, next, table, l, page, k, t);
      TableAligned(f, own, next, t);
      TableAligned(f, own, next, table);
      EntryAfter(f, g, t, i, e, table, Index(page, l));
      ThroughKept(f, g, own, next, FrameOf(Entry(f, table, Index(page, l))), l - 1, page, k, t, i, e);
    }
  }

  // --- Keeping the invariant ------------------------------------------------------------------------

  lemma FreshData(f: map<nat, Frame>, own: map<nat, Owner>, next: nat, page: nat)
    requires WellFormed(f, own, next) && 0 < next && next + FRAME <= PHYS_LIMIT
    ensures next !in own && WellFormed(f, own[next := Data(page)], next + FRAME)
  {
    hide FrameOf, Entry, Child, Present, Writable, User;
    var own' := own[next := Data(page)];
    forall t | t in own' && own'[t].Table?
      ensures TableFits(f, own', t)
    {
      assert TableFits(f, own, t);
      forall i | 0 <= i < FAN
        ensures EntryFits(own', own[t].level, own[t].prefix, i, Entry(f, t, i))
      {
        assert EntryFits(own, own[t].level, own[t].prefix, i, Entry(f, t, i));
      }
    }
  }

  /** An entry may be cleared, or pointed at the frame its slot owns. */
  lemma EntryKeeps(f: map<nat, Frame>, g: map<nat, Frame>, own: map<nat, Owner>, next: nat, t: nat, i: nat, e: nat)
    requires WellFormed(f, own, next) && t in own && own[t].Table? && i < FAN
    requires EntrySet(f, g, t, i, e) && EntryFits(own, own[t].level, own[t].prefix, i, e)
    ensures WellFormed(g, own, next)
  {
    hide FrameOf, Entry, Child, Present, Writable, User, EntryFits, EntrySet, ByteAt;
    ZeroKeptByTable(f, g, own, next, t, i, e);
    forall t' | t' in own && own[t'].Table?
      ensures TableFits(g, own, t')
    {
      assert TableFits(f, own, t');
      forall i' | 0 <= i' < FAN
        ensures EntryFits(own, own[t'].level, own[t'].prefix, i', Entry(g, t', i'))
      {
        EntryAfter(f, g, t, i, e, t', i');
        assert EntryFits(own, own[t'].level, own[t'].prefix, i', Entry(f, t', i'));
      }
    }
  }

  lemma ZeroKeptByTable(f: map<nat, Frame>, g: map<nat, Frame>, own: map<nat, Owner>, next: nat, t: nat, i: nat, e: nat)
    requires WellFormed(f, own, next) && t in own && i < FAN && EntrySet(f, g, t, i, e)
    ensures ZeroFrom(g, next)
  {
    hide ByteAt, ToLe;
    TableAligned(f, own, next, t);
  }

  lemma Graft(f: map<nat, Frame>, g: map<nat, Frame>, own: map<nat, Owner>, next: nat, t: nat, i: nat)
    requires WellFormed(f, own, next) && 0 < next && next + FRAME <= PHYS_LIMIT
    requires t in own && own[t].Table? && own[t].level > 1 && i < FAN
    requires EntrySet(f, g, t, i, MakeEntry(next, true, true))
    ensures next !in own
    ensures WellFormed(g, own[next := Table(own[t].level - 1, Child(own[t].prefix, i))], next + FRAME)
  {
    hide FrameOf, Entry, Child, Present, Writable, User, MakeEntry;
    var own' := own[next := Table(own[t].level - 1, Child(own[t].prefix, i))];
    forall t' | t' in own' && own'[t'].Table?
      ensures TableFits(g, own', t')
    {
      forall i' | 0 <= i' < FAN
        ensures EntryFits(own', own'[t'].level, own'[t'].prefix, i', Entry(g, t', i'))
      {
        EntryAfter(f, g, t, i, MakeEntry(next, true, true), t', i');
        if t' == next {
          NullEntry();
          ZeroEntry(f, next, i');
        } else if t' != t || i' != i {
          assert TableFits(f, own, t');
          assert EntryFits(own, own[t'].level, own[t'].prefix, i', Entry(f, t', i'));
        }
      }
    }
  }

  /** Writing inside a data frame touches no table. */
  lemma DataWrite(f: map<nat, Frame>, g: map<nat, Frame>, own: map<nat, Owner>, next: nat,
                  frame: nat, off: nat, data: seq<byte>)
    requires WellFormed(f, own, next) && frame in own && own[frame].Data? && off + |data| <= FRAME
    requires Stored(f, g, frame + off, data)
    ensures WellFormed(g, own, next)
    ensures forall t, i :: t in own && own[t].Table? && 0 <= i < FAN ==> Entry(g, t, i) == Entry(f, t, i)
  {
    hide FrameOf, Entry, Child, Present, Writable, User, EntryFits;
    forall t, i | t in own && own[t].Table? && 0 <= i < FAN
      ensures Entry(g, t, i) == Entry(f, t, i)
    {
      FramesApart(t, frame);
      EntrySame(f, g, t, i);
    }
    assert ZeroFrom(g, next);
    forall t | t in own && own[t].Table?
      ensures TableFits(g, own, t)
    {
      assert TableFits(f, own, t);
    }
  }
}
