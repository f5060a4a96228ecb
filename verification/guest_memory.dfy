/** Guest bytes seen through the page tables, and what a copy into them changes. */
module GuestMemory {
  import opened PhysMemory
  import opened PageTree
  import opened PageViews

  /** Exclusive end of the linear addresses a walk can tell apart. */
  const LINEAR_END: nat := 0x1_0000_0000_0000

  /** The guest byte at a linear address, if its page is present. */
  function GuestByte(f: map<nat, Frame>, root: nat, lin: nat): Option<byte> {
    var r := Resolved(f, root, lin);
    if r.Some? then Some(ByteAt(f, r.value)) else None
  }

  /** The tables see linear addresses modulo 2^48. */
  lemma GuestWraps(f: map<nat, Frame>, root: nat, lin: nat, lin': nat)
    requires lin % 0x1_0000_0000_0000 == lin' % 0x1_0000_0000_0000
    ensures GuestByte(f, root, lin) == GuestByte(f, root, lin')
  {
    hide Leaf, ByteAt, FrameOf, Present, PageOf;
    PageAndOffset(lin);
    PageAndOffset(lin');
  }

  lemma PageAndOffset(lin: nat)
    ensures PageOf(lin) == lin % 0x1_0000_0000_0000 / 4096
    ensures lin % 4096 == lin % 0x1_0000_0000_0000 % 4096
  {
    var r, k := lin % 0x1_0000_0000_0000, lin / 0x1_0000_0000_0000;
    assert lin == r + 0x1_0000_0000_0000 * k;
    assert lin / 4096 == r / 4096 + 0x10_0000_0000 * k;
  }

  /** The position of address `x` in a copy that starts at `lin`. */
  function Position(x: nat, lin: nat): nat {
    (x - lin) % 0x1_0000_0000_0000
  }

  /** `g` is `f` with the first `done` bytes of `data` copied to guest address `lin`. */
  ghost predicate Copied(f: map<nat, Frame>, g: map<nat, Frame>, root: nat, lin: nat, data: seq<byte>, done: nat)
    requires done <= |data|
  {
    forall x: nat :: x < LINEAR_END ==>
      GuestByte(g, root, x) ==
      if Position(x, lin) < done then Some(data[Position(x, lin)]) else GuestByte(f, root, x)
  }

  /** Every table entry is the same in `f` and `g`. */
  ghost predicate TablesSame(f: map<nat, Frame>, g: map<nat, Frame>, own: map<nat, Owner>) {
    forall t, i :: t in own && own[t].Table? && 0 <= i < FAN ==> Entry(g, t, i) == Entry(f, t, i)
  }

  lemma TablesSameLeaves(f: map<nat, Frame>, g: map<nat, Frame>, own: map<nat, Owner>, next: nat, root: nat)
    requires WellFormed(f, own, next) && RootFits(own, root) && TablesSame(f, g, own)
    ensures SameLeaves(f, g, root) && View(g, root) == View(f, root)
  {
    hide WellFormed, Entry, Leaf, View, Prefix;
    forall p: nat | p < PAGES
      ensures Leaf(g, root, 4, p) == Leaf(f, root, 4, p)
    {
      RootPrefix(p);
      LeafFrame(f, g, own, next, root, 4, p);
    }
    SameView(f, g, root);
  }

  /** Storing a chunk in the frame of one page changes the guest bytes of that span alone: no other
      page shares the frame. */
  lemma ChunkSeen(f: map<nat, Frame>, g: map<nat, Frame>, own: map<nat, Owner>, next: nat, root: nat,
                  addr: nat, phys: nat, chunk: seq<byte>)
    requires WellFormed(f, own, next) && RootFits(own, root)
    requires Resolved(f, root, addr) == Some(phys) && addr % 4096 + |chunk| <= 4096
    requires Stored(f, g, phys, chunk)
    ensures WellFormed(g, own, next) && TablesSame(f, g, own) && SameLeaves(f, g, root)
    ensures forall x: nat :: GuestByte(g, root, x) ==
              if PageOf(x) == PageOf(addr) && addr % 4096 <= x % 4096 < addr % 4096 + |chunk|
              then Some(chunk[x % 4096 - addr % 4096]) else GuestByte(f, root, x)
  {
    hide WellFormed, Entry, Leaf, View, Prefix, FrameOf, Present, ByteAt, PageOf, TablesSame, SameLeaves;
    ResolvedMeans(f, own, next, root, addr);
    var frame := View(f, root)[PageOf(addr)].frame;
    var off := addr % 4096;
    DataWriteTables(f, g, own, next, frame, off, chunk);
    TablesSameLeaves(f, g, own, next, root);
    forall x: nat
      ensures GuestByte(g, root, x) ==
              if PageOf(x) == PageOf(addr) && off <= x % 4096 < off + |chunk|
              then Some(chunk[x % 4096 - off]) else GuestByte(f, root, x)
    {
      ResolvedSame(f, g, root, x);
      ResolvedMeans(f, own, next, root, x);
      if Resolved(f, root, x).Some? && PageOf(x) != PageOf(addr) {
        var other := View(f, root)[PageOf(x)].frame;
        TableAligned(f, own, next, frame);
        TableAligned(f, own, next, other);
        FramesApart(other, frame);
      }
    }
  }

  lemma DataWriteTables(f: map<nat, Frame>, g: map<nat, Frame>, own: map<nat, Owner>, next: nat,
                        frame: nat, off: nat, data: seq<byte>)
    requires WellFormed(f, own, next) && frame in own && own[frame].Data? && off + |data| <= FRAME
    requires Stored(f, g, frame + off, data)
    ensures WellFormed(g, own, next) && TablesSame(f, g, own)
  {
    hide WellFormed, Entry, ByteAt;
    DataWrite(f, g, own, next, frame, off, data);
  }

  lemma ResolvedSame(f: map<nat, Frame>, g: map<nat, Frame>, root: nat, x: nat)
    requires SameLeaves(f, g, root)
    ensures Resolved(g, root, x) == Resolved(f, root, x)
  {
    hide Leaf;
  }

  // --- Guest bytes when the tables change -----------------------------------------------------

  /** The guest bytes after a map: pages that were there keep theirs, new ones hold zeros. */
  ghost predicate MappedBytes(f: map<nat, Frame>, g: map<nat, Frame>, root: nat, pages: set<nat>) {
    forall x: nat ::
      GuestByte(g, root, x) ==
      if PageOf(x) in View(f, root) then GuestByte(f, root, x) else if PageOf(x) in pages then Some(0) else None
  }

  /** The guest bytes after an unmap: those of the given pages are gone, the others are as they were. */
  ghost predicate UnmappedBytes(f: map<nat, Frame>, g: map<nat, Frame>, root: nat, pages: set<nat>) {
    forall x: nat :: GuestByte(g, root, x) == if PageOf(x) in pages then None else GuestByte(f, root, x)
  }

  /** Every guest byte is as it was. */
  ghost predicate SameGuest(f: map<nat, Frame>, g: map<nat, Frame>, root: nat) {
    forall x: nat :: GuestByte(g, root, x) == GuestByte(f, root, x)
  }

  /** One guest byte through the view. */
  lemma ByteThroughView(a: Tables, x: nat)
    requires a.Good()
    ensures PageOf(x) !in a.Pages() ==> GuestByte(a.frames, a.root, x) == None
    ensures PageOf(x) in a.Pages() ==>
              var d := a.Pages()[PageOf(x)].frame;
              && d in a.own && a.own[d] == Data(PageOf(x))
              && GuestByte(a.frames, a.root, x) == Some(ByteAt(a.frames, d + x % 4096))
  {
    hide WellFormed, View, PageOf, ByteAt, Resolved, RootFits, Leaf, FrameOf;
    ResolvedMeans(a.frames, a.own, a.next, a.root, x);
  }

  lemma MapSeen(a: Tables, b: Tables, pages: set<nat>, writable: bool, user: bool)
    requires a.Good() && MapProgress(a, b, pages, writable, user)
    ensures MappedBytes(a.frames, b.frames, a.root, pages)
  {
    hide WellFormed, View, PageOf, ByteAt, RootFits, GuestByte;
    forall x: nat
      ensures GuestByte(b.frames, a.root, x) ==
              if PageOf(x) in View(a.frames, a.root) then GuestByte(a.frames, a.root, x)
              else if PageOf(x) in pages then Some(0) else None
    {
      ByteThroughView(a, x);
      ByteThroughView(b, x);
    }
  }

  /** Changing entries without moving frames: what is still mapped reads as before, the rest is gone. */
  lemma RemapSeen(a: Tables, b: Tables, v: map<nat, Mapping>)
    requires a.Good() && Remapped(a, b, v)
    requires forall p :: p in v ==> p in a.Pages() && v[p].frame == a.Pages()[p].frame
    ensures forall x: nat :: GuestByte(b.frames, a.root, x) ==
              if PageOf(x) in v then GuestByte(a.frames, a.root, x) else None
  {
    hide WellFormed, View, PageOf, ByteAt, RootFits, GuestByte;
    forall x: nat
      ensures GuestByte(b.frames, a.root, x) == if PageOf(x) in v then GuestByte(a.frames, a.root, x) else None
    {
      ByteThroughView(a, x);
      ByteThroughView(b, x);
    }
  }

  lemma ProtectSeen(a: Tables, b: Tables, pages: set<nat>, writable: bool)
    requires a.Good() && Remapped(a, b, ProtectPages(a.Pages(), pages, writable))
    ensures SameGuest(a.frames, b.frames, a.root)
  {
    hide WellFormed, View, PageOf, ByteAt, RootFits, GuestByte, Remapped;
    RemapSeen(a, b, ProtectPages(a.Pages(), pages, writable));
    forall x: nat
      ensures GuestByte(b.frames, a.root, x) == GuestByte(a.frames, a.root, x)
    {
      ByteThroughView(a, x);
    }
  }

  lemma UnmapSeen(a: Tables, b: Tables, pages: set<nat>)
    requires a.Good() && Remapped(a, b, a.Pages() - pages)
    ensures UnmappedBytes(a.frames, b.frames, a.root, pages)
  {
    hide WellFormed, View, PageOf, ByteAt, RootFits, GuestByte, Remapped;
    RemapSeen(a, b, a.Pages() - pages);
    forall x: nat
      ensures GuestByte(b.frames, a.root, x) == if PageOf(x) in pages then None else GuestByte(a.frames, a.root, x)
    {
      ByteThroughView(a, x);
    }
  }

  // --- One chunk of a copy ------------------------------------------------------------------

  /** Which addresses of the chunk's page a copy reaches next. */
  lemma ChunkPositions(x: nat, lin: nat, done: nat, n: nat, addr: nat)
    requires x < LINEAR_END && done + n <= LINEAR_END
    requires addr % 0x1_0000_0000_0000 == (lin + done) % 0x1_0000_0000_0000 && addr % 4096 + n <= 4096
    ensures done <= Position(x, lin) < done + n <==>
            PageOf(x) == PageOf(addr) && addr % 4096 <= x % 4096 < addr % 4096 + n
    ensures done <= Position(x, lin) < done + n ==> Position(x, lin) - done == x % 4096 - addr % 4096
  {
    var b := addr % 0x1_0000_0000_0000;
    PageAndOffset(addr);
    PageAndOffset(x);
    var k := Position(x, lin);
    // the chunk is [b, b + n), inside one page below 2^48
    var page, off := b / 4096, b % 4096;
    assert b == 4096 * page + off;
    SpanWithinPage(x, page, off, n);
    PositionOf(x, lin, done, b, n);
  }

  lemma SpanWithinPage(x: nat, page: nat, off: nat, n: nat)
    requires off + n <= 4096
    ensures x / 4096 == page && off <= x % 4096 < off + n <==> 4096 * page + off <= x < 4096 * page + off + n
  {
  }

  lemma PositionOf(x: nat, lin: nat, done: nat, b: nat, n: nat)
    requires x < LINEAR_END && done + n <= LINEAR_END && b + n <= LINEAR_END
    requires b == (lin + done) % 0x1_0000_0000_0000
    ensures done <= Position(x, lin) < done + n <==> b <= x < b + n
    ensures b <= x < b + n ==> Position(x, lin) == done + (x - b)
  {
    var q := (lin + done) / 0x1_0000_0000_0000;
    assert lin + done == 0x1_0000_0000_0000 * q + b;
    var k := Position(x, lin);
    var m := (x - lin) / 0x1_0000_0000_0000;
    assert x - lin == 0x1_0000_0000_0000 * m + k;
    assert x - b == 0x1_0000_0000_0000 * (m + q) + k - done;
  }

  /** A copy that has reached `done` and stores the next `n` bytes has reached `done + n`. */
  lemma CopyStep(f0: map<nat, Frame>, f: map<nat, Frame>, g: map<nat, Frame>, own: map<nat, Owner>, next: nat,
                 root: nat, lin: nat, data: seq<byte>, done: nat, n: nat, addr: nat, phys: nat)
    requires WellFormed(f, own, next) && RootFits(own, root) && done + n <= |data| <= LINEAR_END
    requires addr % 0x1_0000_0000_0000 == (lin + done) % 0x1_0000_0000_0000 && addr % 4096 + n <= 4096
    requires Resolved(f, root, addr) == Some(phys) && Stored(f, g, phys, data[done..done + n])
    requires Copied(f0, f, root, lin, data, done) && TablesSame(f0, f, own)
    ensures WellFormed(g, own, next) && TablesSame(f0, g, own)
    ensures Copied(f0, g, root, lin, data, done + n)
  {
    hide WellFormed, Entry, Leaf, GuestByte, PageOf, Position, Stored, SameLeaves, RootFits;
    ChunkSeen(f, g, own, next, root, addr, phys, data[done..done + n]);
    forall x: nat | x < LINEAR_END
      ensures GuestByte(g, root, x) ==
              if Position(x, lin) < done + n then Some(data[Position(x, lin)]) else GuestByte(f0, root, x)
    {
      ChunkPositions(x, lin, done, n, addr);
    }
  }

  /** The guest byte `i` places after `lin`. */
  function GuestAt(f: map<nat, Frame>, root: nat, lin: nat, i: nat): Option<byte> {
    GuestByte(f, root, lin + i)
  }

  /** The `n` guest bytes from `lin` are present. */
  ghost predicate AllPresent(f: map<nat, Frame>, root: nat, lin: nat, n: nat) {
    forall i: nat :: i < n ==> GuestAt(f, root, lin, i).Some?
  }

  /** The guest bytes from `lin` are those of `s`. */
  ghost predicate Holds(f: map<nat, Frame>, root: nat, lin: nat, s: seq<byte>) {
    forall i: nat :: i < |s| ==> GuestAt(f, root, lin, i) == Some(s[i])
  }

  /** The bytes of a whole chunk are present as soon as its page is. */
  lemma PresentMore(f: map<nat, Frame>, root: nat, lin: nat, done: nat, n: nat, addr: nat)
    requires addr % 0x1_0000_0000_0000 == (lin + done) % 0x1_0000_0000_0000 && addr % 4096 + n <= 4096
    requires AllPresent(f, root, lin, done)
    ensures Resolved(f, root, addr).Some? ==> AllPresent(f, root, lin, done + n)
    ensures n > 0 && Resolved(f, root, addr) == None ==> GuestAt(f, root, lin, done) == None
  {
    hide Leaf, ByteAt, FrameOf, Present, PageOf;
    if n > 0 {
      SamePage(lin + done, addr, 0);
    }
    forall i: nat | done <= i < done + n
      ensures Resolved(f, root, addr).Some? ==> GuestAt(f, root, lin, i).Some?
    {
      SamePage(lin + done, addr, i - done);
    }
  }

  /** A chunk read from the frame of its page is what the guest addresses hold. */
  lemma HoldsMore(f: map<nat, Frame>, root: nat, lin: nat, s: seq<byte>, n: nat, addr: nat, phys: nat)
    requires addr % 0x1_0000_0000_0000 == (lin + |s|) % 0x1_0000_0000_0000 && addr % 4096 + n <= 4096
    requires Resolved(f, root, addr) == Some(phys) && Holds(f, root, lin, s)
    ensures Holds(f, root, lin, s + Bytes(f, phys, n))
  {
    hide Leaf, FrameOf, Present, PageOf, ByteAt;
    var more := s + Bytes(f, phys, n);
    forall i: nat | i < |more|
      ensures GuestAt(f, root, lin, i) == Some(more[i])
    {
      if i >= |s| {
        SamePage(lin + |s|, addr, i - |s|);
      }
    }
  }

  lemma HoldsNothing(f: map<nat, Frame>, root: nat, lin: nat)
    ensures Holds(f, root, lin, [])
  {
  }

  lemma HoldsPresent(f: map<nat, Frame>, root: nat, lin: nat, s: seq<byte>)
    requires Holds(f, root, lin, s)
    ensures AllPresent(f, root, lin, |s|)
  {
    hide GuestAt;
  }

  lemma HoldsOne(f: map<nat, Frame>, root: nat, lin: nat, s: seq<byte>, b: byte)
    requires Holds(f, root, lin, s) && GuestAt(f, root, lin, |s|) == Some(b)
    ensures Holds(f, root, lin, s + [b])
  {
    hide GuestAt;
  }

  /** One byte of a guest string, through the table walk for its own address. */
  lemma ByteOf(f: map<nat, Frame>, root: nat, lin: nat, i: nat, addr: nat)
    requires addr % 0x1_0000_0000_0000 == (lin + i) % 0x1_0000_0000_0000
    ensures GuestAt(f, root, lin, i) ==
            if Resolved(f, root, addr).Some? then Some(ByteAt(f, Resolved(f, root, addr).value)) else None
  {
    hide Resolved, ByteAt;
    GuestWraps(f, root, lin + i, addr);
  }

  lemma SamePage(a: nat, b: nat, i: nat)
    requires a % 0x1_0000_0000_0000 == b % 0x1_0000_0000_0000 && b % 4096 + i < 4096
    ensures PageOf(a + i) == PageOf(b) && (a + i) % 4096 == b % 4096 + i
  {
    PageAndOffset(a);
    PageAndOffset(b);
    NoCarry(a, i);
  }

  lemma NoCarry(a: nat, i: nat)
    requires a % 4096 + i < 4096
    ensures (a + i) / 4096 == a / 4096 && (a + i) % 4096 == a % 4096 + i
  {
  }

  /** What was copied is what is there: every byte of a complete copy, wherever it wraps. */
  lemma CopyReadsBack(f: map<nat, Frame>, g: map<nat, Frame>, root: nat, lin: nat, data: seq<byte>)
    requires |data| <= LINEAR_END && Copied(f, g, root, lin, data, |data|)
    ensures Holds(g, root, lin, data)
  {
    hide GuestByte, Position;
    forall i: nat | i < |data|
      ensures GuestAt(g, root, lin, i) == Some(data[i])
    {
      var x := (lin + i) % 0x1_0000_0000_0000;
      GuestWraps(g, root, lin + i, x);
      PositionOf(x, lin, i, x, 1);
    }
  }

  /** A NUL-terminated string in guest memory. */
  predicate NulFree(s: seq<byte>) {
    forall i :: 0 <= i < |s| ==> s[i] != 0
  }

  ghost predicate StringAt(f: map<nat, Frame>, root: nat, lin: nat, s: seq<byte>) {
    Holds(f, root, lin, s + [0])
  }

  lemma NulIsAfter(f: map<nat, Frame>, root: nat, lin: nat, out: seq<byte>, n: nat)
    requires Holds(f, root, lin, out) && NulFree(out) && GuestAt(f, root, lin, n) == Some(0)
    ensures n >= |out|
  {
    hide GuestAt;
  }

  /** A string that starts with NUL-free bytes `out` is at least that long. */
  lemma StringPasses(f: map<nat, Frame>, root: nat, lin: nat, out: seq<byte>)
    requires Holds(f, root, lin, out) && NulFree(out)
    ensures forall s :: NulFree(s) && StringAt(f, root, lin, s) ==> |s| >= |out|
  {
    hide GuestAt;
    forall s | NulFree(s) && StringAt(f, root, lin, s)
      ensures |s| >= |out|
    {
      var n, t := |s|, s + [0];
      assert t[n] == 0 && GuestAt(f, root, lin, n) == Some(t[n]);
      NulIsAfter(f, root, lin, out, n);
    }
  }

  lemma NoStringHere(f: map<nat, Frame>, root: nat, lin: nat, out: seq<byte>)
    requires Holds(f, root, lin, out) && NulFree(out) && GuestAt(f, root, lin, |out|) == None
    ensures forall s :: NulFree(s) ==> !StringAt(f, root, lin, s)
  {
    hide GuestAt;
    StringPasses(f, root, lin, out);
    forall s | NulFree(s)
      ensures !StringAt(f, root, lin, s)
    {
      assert |s| >= |out| ==> |out| < |s + [0]|;
    }
  }

  lemma OneString(f: map<nat, Frame>, root: nat, lin: nat, out: seq<byte>)
    requires StringAt(f, root, lin, out) && NulFree(out)
    ensures forall s :: NulFree(s) && StringAt(f, root, lin, s) ==> s == out
  {
    hide GuestAt;
    forall s | NulFree(s) && StringAt(f, root, lin, s)
      ensures s == out
    {
      HoldsFront(f, root, lin, out, [0]);
      HoldsFront(f, root, lin, s, [0]);
      StringPasses(f, root, lin, out);
      StringPasses(f, root, lin, s);
      assert |s| == |out|;
      forall i | 0 <= i < |s|
        ensures s[i] == out[i]
      {
        assert GuestAt(f, root, lin, i) == Some(s[i]);
      }
    }
  }

  lemma HoldsFront(f: map<nat, Frame>, root: nat, lin: nat, s: seq<byte>, t: seq<byte>)
    requires Holds(f, root, lin, s + t)
    ensures Holds(f, root, lin, s)
  {
    hide GuestAt;
    forall i: nat | i < |s|
      ensures GuestAt(f, root, lin, i) == Some(s[i])
    {
      assert (s + t)[i] == s[i];
    }
  }

  /** What is read is what is held, as far as it goes; a shorter read stopped at a missing page. */
  lemma SameHeld(f: map<nat, Frame>, root: nat, lin: nat, s: seq<byte>, t: seq<byte>)
    requires Holds(f, root, lin, s) && Holds(f, root, lin, t) && |s| <= |t|
    ensures s == t[..|s|] && (|s| < |t| ==> GuestAt(f, root, lin, |s|) != None)
  {
    hide GuestAt;
    forall i: nat | i < |s|
      ensures s[i] == t[i]
    {
      assert GuestAt(f, root, lin, i) == Some(s[i]);
    }
  }

  /** A complete copy followed by a complete read of as many bytes gives the data back. */
  lemma WrittenIsRead(f: map<nat, Frame>, g: map<nat, Frame>, root: nat, lin: nat, data: seq<byte>, buf: seq<byte>)
    requires |data| <= LINEAR_END && Copied(f, g, root, lin, data, |data|)
    requires Holds(g, root, lin, buf) && |buf| == |data|
    ensures buf == data
  {
    hide Copied, Holds;
    CopyReadsBack(f, g, root, lin, data);
    SameHeld(g, root, lin, buf, data);
  }

  /** Whether `x` and `lin + i` name the same guest byte. */
  predicate IsAddress(x: nat, lin: nat, i: nat) {
    x % 0x1_0000_0000_0000 == (lin + i) % 0x1_0000_0000_0000
  }

  /** A copy leaves every guest byte outside its range alone, even one that wraps at 2^48. */
  lemma CopyLeavesRest(f: map<nat, Frame>, g: map<nat, Frame>, root: nat, lin: nat, data: seq<byte>, done: nat, x: nat)
    requires done <= |data| <= LINEAR_END && Copied(f, g, root, lin, data, done)
    requires forall i: nat :: i < done ==> !IsAddress(x, lin, i)
    ensures GuestByte(g, root, x) == GuestByte(f, root, x)
  {
    hide GuestByte, Position;
    var y := x % 0x1_0000_0000_0000;
    GuestWraps(f, root, x, y);
    GuestWraps(g, root, x, y);
    if Position(y, lin) < done {
      PositionAddress(y, lin);
      assert IsAddress(x, lin, Position(y, lin));
    }
  }

  lemma PositionAddress(y: nat, lin: nat)
    requires y < LINEAR_END
    ensures (lin + Position(y, lin)) % 0x1_0000_0000_0000 == y
  {
    var k := Position(y, lin);
    var m := (y - lin) / 0x1_0000_0000_0000;
    assert y - lin == 0x1_0000_0000_0000 * m + k;
    var n := 0 - m;
    assert lin + k == 0x1_0000_0000_0000 * n + y;
    SplitAt48(n, y);
  }

  lemma SplitAt48(n: int, y: nat)
    requires y < LINEAR_END
    ensures (0x1_0000_0000_0000 * n + y) % 0x1_0000_0000_0000 == y
  {
  }
}
