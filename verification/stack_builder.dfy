/** The initial process stack of the System V AMD64 psABI, section 3.4.1: strings pushed down from the
    top, then the block of argc, pointers and auxiliary vector below them. */
module StackBuilder {
  import opened PhysMemory
  import opened PageTree
  import opened PageViews
  import opened GuestMemory
  import opened Regions
  import opened AddressSpaces

  /** What the stack needs to know of the program image. */
  datatype ElfImage = ElfImage(phdr: u64, phent: u64, phnum: u64, entry: u64)

  const RANDOM16: seq<byte> :=
    [0x9e, 0x37, 0x79, 0xb9, 0x7f, 0x4a, 0x7c, 0x15, 0xf3, 0x9c, 0xc0, 0x60, 0x5c, 0xed, 0xc8, 0x34]

  /** The platform name, "x86_64". */
  const PLATFORM: seq<byte> := [0x78, 0x38, 0x36, 0x5f, 0x36, 0x34]

  const AT_NULL: nat := 0
  const AT_PHDR: nat := 3
  const AT_PHENT: nat := 4
  const AT_PHNUM: nat := 5
  const AT_PAGESZ: nat := 6
  const AT_BASE: nat := 7
  const AT_FLAGS: nat := 8
  const AT_ENTRY: nat := 9
  const AT_UID: nat := 11
  const AT_EUID: nat := 12
  const AT_GID: nat := 13
  const AT_EGID: nat := 14
  const AT_PLATFORM: nat := 15
  const AT_HWCAP: nat := 16
  const AT_CLKTCK: nat := 17
  const AT_SECURE: nat := 23
  const AT_RANDOM: nat := 25
  const AT_EXECFN: nat := 31

  // --- Layout -----------------------------------------------------------------------------

  /** Bytes the NUL-terminated strings take. */
  function StringBytes(list: seq<seq<byte>>): nat {
    if list == [] then 0 else StringBytes(list[..|list| - 1]) + |list[|list| - 1]| + 1
  }

  function Terminated(list: seq<seq<byte>>): (t: seq<seq<byte>>)
    ensures |t| == |list| && forall i :: 0 <= i < |list| ==> t[i] == list[i] + [0]
  {
    seq(|list|, i requires 0 <= i < |list| => list[i] + [0])
  }

  /** The lowest string byte. */
  function StringsBase(argv: seq<seq<byte>>, envp: seq<seq<byte>>, execPath: seq<byte>): int {
    STACK_TOP - StringBytes(argv) - StringBytes(envp) - 7 - (|execPath| + 1) - 16
  }

  /** Words in the pointer block: argc, both vectors with their NULLs, eighteen auxv pairs. */
  function BlockWords(argv: seq<seq<byte>>, envp: seq<seq<byte>>): nat {
    1 + (|argv| + 1) + (|envp| + 1) + 36
  }

  function StackBase(argv: seq<seq<byte>>, envp: seq<seq<byte>>, execPath: seq<byte>): int {
    (StringsBase(argv, envp, execPath) - 8 * BlockWords(argv, envp)) / 16 * 16
  }

  // --- What is in guest memory ---------------------------------------------------------------

  /** `g` is `f` with `data` at guest address `lin`. */
  ghost predicate Wrote(f: map<nat, Frame>, g: map<nat, Frame>, root: nat, lin: nat, data: seq<byte>) {
    forall x: nat :: x < LINEAR_END ==>
      GuestByte(g, root, x) == if lin <= x < lin + |data| then Some(data[x - lin]) else GuestByte(f, root, x)
  }

  ghost predicate PresentFrom(f: map<nat, Frame>, root: nat, lo: nat, hi: nat) {
    forall x: nat :: lo <= x < hi ==> GuestByte(f, root, x).Some?
  }

  /** Guest memory outside `[lo, hi)` is the same. */
  ghost predicate OutsideSame(f: map<nat, Frame>, g: map<nat, Frame>, root: nat, lo: nat, hi: nat) {
    forall x: nat :: x < LINEAR_END && !(lo <= x < hi) ==> GuestByte(g, root, x) == GuestByte(f, root, x)
  }

  /** Each byte string is at its pointer, between `sp` and the top of the stack. */
  ghost predicate Placed(f: map<nat, Frame>, root: nat, sp: nat, ptrs: seq<nat>, strs: seq<seq<byte>>) {
    && |ptrs| == |strs|
    && forall i :: 0 <= i < |ptrs| ==>
         sp <= ptrs[i] && ptrs[i] + |strs[i]| <= STACK_TOP && Holds(f, root, ptrs[i], strs[i])
  }

  /** The 64-bit words from `base` up. */
  ghost predicate BlockAt(f: map<nat, Frame>, root: nat, base: nat, words: seq<nat>) {
    forall k: nat :: k < |words| ==> Holds(f, root, base + 8 * k, ToLe(words[k], 8))
  }

  /** The stack so far: strings from `sp` up, words from `base` up, nothing else touched since `f0`. */
  ghost predicate Built(f0: map<nat, Frame>, f: map<nat, Frame>, root: nat, lo: nat, sp: nat, ptrs: seq<nat>,
                        strs: seq<seq<byte>>, words: seq<nat>) {
    && lo + 8 * |words| <= sp <= STACK_TOP
    && PresentFrom(f, root, lo, STACK_TOP) && OutsideSame(f0, f, root, lo, STACK_TOP)
    && Placed(f, root, sp, ptrs, strs) && BlockAt(f, root, lo, words)
  }

  lemma CopyWrites(f: map<nat, Frame>, g: map<nat, Frame>, root: nat, lin: nat, data: seq<byte>)
    requires lin + |data| <= LINEAR_END && Copied(f, g, root, lin, data, |data|)
    ensures Wrote(f, g, root, lin, data)
  {
    hide GuestByte, Position;
    forall x: nat | x < LINEAR_END
      ensures GuestByte(g, root, x) == if lin <= x < lin + |data| then Some(data[x - lin]) else GuestByte(f, root, x)
    {
      PlainPosition(x, lin);
    }
  }

  lemma PlainPosition(x: nat, lin: nat)
    requires x < LINEAR_END && lin <= LINEAR_END
    ensures Position(x, lin) ==
            if x >= lin then x - lin else if lin - x == LINEAR_END then 0 else LINEAR_END - (lin - x)
  {
  }

  lemma PresentRange(f: map<nat, Frame>, root: nat, lo: nat, hi: nat, lin: nat, n: nat)
    requires PresentFrom(f, root, lo, hi) && lo <= lin && lin + n <= hi
    ensures forall i: nat :: i < n ==> GuestAt(f, root, lin, i).Some?
  {
    hide GuestByte;
  }

  lemma WroteHolds(f: map<nat, Frame>, g: map<nat, Frame>, root: nat, lin: nat, data: seq<byte>)
    requires Wrote(f, g, root, lin, data) && lin + |data| <= LINEAR_END
    ensures Holds(g, root, lin, data)
  {
    hide GuestByte;
  }

  lemma WroteKeeps(f: map<nat, Frame>, g: map<nat, Frame>, root: nat, lin: nat, data: seq<byte>, p: nat, s: seq<byte>)
    requires Wrote(f, g, root, lin, data) && Holds(f, root, p, s)
    requires p + |s| <= LINEAR_END && (p + |s| <= lin || lin + |data| <= p)
    ensures Holds(g, root, p, s)
  {
    hide GuestByte;
    forall i: nat | i < |s|
      ensures GuestAt(g, root, p, i) == Some(s[i])
    {
      assert GuestAt(f, root, p, i) == Some(s[i]);
    }
  }

  /** Pushing a string below the others. */
  lemma BuiltPush(f0: map<nat, Frame>, f: map<nat, Frame>, g: map<nat, Frame>, root: nat, lo: nat, sp: nat,
                  ptrs: seq<nat>, strs: seq<seq<byte>>, data: seq<byte>)
    requires Built(f0, f, root, lo, sp, ptrs, strs, [])
    requires lo + |data| <= sp && Wrote(f, g, root, sp - |data|, data)
    ensures Built(f0, g, root, lo, sp - |data|, ptrs + [sp - |data|], strs + [data], [])
  {
    hide GuestByte, Holds;
    WroteHolds(f, g, root, sp - |data|, data);
    forall i | 0 <= i < |ptrs|
      ensures Holds(g, root, ptrs[i], strs[i])
    {
      WroteKeeps(f, g, root, sp - |data|, data, ptrs[i], strs[i]);
    }
  }

  /** Writing the next word of the block. */
  lemma BuiltWord(f0: map<nat, Frame>, f: map<nat, Frame>, g: map<nat, Frame>, root: nat, lo: nat, sp: nat,
                  ptrs: seq<nat>, strs: seq<seq<byte>>, words: seq<nat>, v: nat)
    requires Built(f0, f, root, lo, sp, ptrs, strs, words)
    requires lo + 8 * |words| + 8 <= sp && Wrote(f, g, root, lo + 8 * |words|, ToLe(v, 8))
    ensures Built(f0, g, root, lo, sp, ptrs, strs, words + [v])
  {
    hide GuestByte, Holds, ToLe;
    var p, data := lo + 8 * |words|, ToLe(v, 8);
    WroteHolds(f, g, root, p, data);
    forall i | 0 <= i < |ptrs|
      ensures Holds(g, root, ptrs[i], strs[i])
    {
      WroteKeeps(f, g, root, p, data, ptrs[i], strs[i]);
    }
    forall k: nat | k < |words|
      ensures Holds(g, root, lo + 8 * k, ToLe(words[k], 8))
    {
      WroteKeeps(f, g, root, p, data, lo + 8 * k, ToLe(words[k], 8));
    }
  }

  // --- Building ------------------------------------------------------------------------------

  /** A guest write to present pages, below 2^48. */
  method Write(a: AddressSpace, mem: PhysMem, lin: u64, data: seq<byte>)
    requires a.Valid(mem) && a.Fits() && lin + |data| <= LINEAR_END
    requires PresentFrom(mem.frames, FrameOf(a.cr3), lin, lin + |data|)
    modifies mem
    ensures a.Valid(mem) && a.Pages(mem) == old(a.Pages(mem))
    ensures Wrote(old(mem.frames), mem.frames, FrameOf(a.cr3), lin, data)
  {
    hide AddressSpace.Valid, AddressSpace.Pages, AddressSpace.Fits, PresentFrom, Wrote, Copied, FrameOf, AllPresent,
      TablesSame;
    ghost var f := mem.frames;
    var ok, done := a.WriteBytes(mem, lin, data);
    PresentRange(f, FrameOf(a.cr3), lin, lin + |data|, lin, |data|);
    CopyWrites(f, mem.frames, FrameOf(a.cr3), lin, data);
  }

  lemma {:induction false} StringBytesPrefix(list: seq<seq<byte>>, i: nat)
    requires i < |list|
    ensures StringBytes(list[..i + 1]) == StringBytes(list[..i]) + |list[i]| + 1
    ensures StringBytes(list[..i + 1]) <= StringBytes(list)
    decreases |list|
  {
    var front := list[..|list| - 1];
    assert list[..i + 1][..i] == list[..i];
    if i + 1 == |list| {
      assert list[..i + 1] == list;
    } else {
      StringBytesPrefix(front, i);
      assert front[..i + 1] == list[..i + 1];
    }
  }

  /** Push `data` below `sp`. */
  method Push(a: AddressSpace, mem: PhysMem, sp: u64, data: seq<byte>, ghost f0: map<nat, Frame>, ghost lo: nat,
              ghost ptrs: seq<nat>, ghost strs: seq<seq<byte>>) returns (addr: u64)
    requires a.Valid(mem) && a.Fits() && lo + |data| <= sp <= STACK_TOP
    requires Built(f0, mem.frames, FrameOf(a.cr3), lo, sp, ptrs, strs, [])
    modifies mem
    ensures a.Valid(mem) && a.Pages(mem) == old(a.Pages(mem)) && addr == sp - |data|
    ensures Built(f0, mem.frames, FrameOf(a.cr3), lo, addr, ptrs + [addr], strs + [data], [])
  {
    hide AddressSpace.Valid, AddressSpace.Pages, AddressSpace.Fits, PresentFrom, Wrote, FrameOf, Built, Placed;
    ghost var f := mem.frames;
    addr := sp - |data|;
    BuiltPresent(f0, f, FrameOf(a.cr3), lo, sp, ptrs, strs, [], addr, |data|);
    Write(a, mem, addr, data);
    BuiltPush(f0, f, mem.frames, FrameOf(a.cr3), lo, sp, ptrs, strs, data);
  }

  lemma BuiltPresent(f0: map<nat, Frame>, f: map<nat, Frame>, root: nat, lo: nat, sp: nat, ptrs: seq<nat>,
                     strs: seq<seq<byte>>, words: seq<nat>, lin: nat, n: nat)
    requires Built(f0, f, root, lo, sp, ptrs, strs, words) && lo <= lin && lin + n <= STACK_TOP
    ensures PresentFrom(f, root, lin, lin + n)
  {
    hide GuestByte, Placed;
  }

  lemma BuiltStart(f: map<nat, Frame>, root: nat, lo: nat)
    requires PresentFrom(f, root, lo, STACK_TOP) && lo <= STACK_TOP
    ensures Built(f, f, root, lo, STACK_TOP, [], [], [])
  {
    hide GuestByte;
  }

  /** Push every string of `list` with its NUL; `ptrs` are their addresses. */
  method PushAll(a: AddressSpace, mem: PhysMem, top: u64, list: seq<seq<byte>>, ghost f0: map<nat, Frame>,
                 ghost lo: nat, ghost ptrs0: seq<nat>, ghost strs0: seq<seq<byte>>)
    returns (sp: u64, ptrs: seq<u64>)
    requires a.Valid(mem) && a.Fits() && lo + StringBytes(list) <= top <= STACK_TOP
    requires Built(f0, mem.frames, FrameOf(a.cr3), lo, top, ptrs0, strs0, [])
    modifies mem
    ensures a.Valid(mem) && a.Pages(mem) == old(a.Pages(mem))
    ensures sp == top - StringBytes(list) && |ptrs| == |list|
    ensures Built(f0, mem.frames, FrameOf(a.cr3), lo, sp, ptrs0 + ptrs, strs0 + Terminated(list), [])
  {
    hide AddressSpace.Valid, AddressSpace.Pages, AddressSpace.Fits, FrameOf, Built, StringBytes;
    sp, ptrs := top, [];
    NoStrings(list);
    assert strs0 + [] == strs0 && ptrs0 + [] == ptrs0;
    for i := 0 to |list|
      invariant a.Valid(mem) && a.Pages(mem) == old(a.Pages(mem))
      invariant lo <= sp == top - StringBytes(list[..i]) && |ptrs| == i
      invariant Built(f0, mem.frames, FrameOf(a.cr3), lo, sp, ptrs0 + ptrs, strs0 + Terminated(list)[..i], [])
    {
      StringBytesPrefix(list, i);
      ghost var strs := strs0 + Terminated(list)[..i];
      sp := Push(a, mem, sp, list[i] + [0], f0, lo, ptrs0 + ptrs, strs);
      assert ptrs0 + ptrs + [sp] == ptrs0 + (ptrs + [sp]);
      assert strs + [list[i] + [0]] == strs0 + Terminated(list)[..i + 1];
      ptrs := ptrs + [sp];
    }
    assert list[..|list|] == list && Terminated(list)[..|list|] == Terminated(list);
  }

  lemma NoStrings(list: seq<seq<byte>>)
    ensures StringBytes(list[..0]) == 0 && Terminated(list)[..0] == []
  {
  }

  /** Write `vs` as consecutive words of the block. */
  method WriteWords(a: AddressSpace, mem: PhysMem, p: u64, vs: seq<u64>, ghost f0: map<nat, Frame>, ghost lo: nat,
                    ghost sp: nat, ghost ptrs: seq<nat>, ghost strs: seq<seq<byte>>, ghost words: seq<nat>)
    returns (next: u64)
    requires a.Valid(mem) && a.Fits() && p == lo + 8 * |words| && p + 8 * |vs| <= sp <= STACK_TOP
    requires Built(f0, mem.frames, FrameOf(a.cr3), lo, sp, ptrs, strs, words)
    modifies mem
    ensures a.Valid(mem) && a.Pages(mem) == old(a.Pages(mem)) && next == p + 8 * |vs|
    ensures Built(f0, mem.frames, FrameOf(a.cr3), lo, sp, ptrs, strs, words + vs)
  {
    hide AddressSpace.Valid, AddressSpace.Pages, AddressSpace.Fits, FrameOf, Built, ToLe, Wrote, PresentFrom;
    next := p;
    assert words + [] == words;
    for i := 0 to |vs|
      invariant a.Valid(mem) && a.Pages(mem) == old(a.Pages(mem)) && next == p + 8 * i
      invariant Built(f0, mem.frames, FrameOf(a.cr3), lo, sp, ptrs, strs, words + vs[..i])
    {
      ghost var f, done := mem.frames, words + vs[..i];
      BuiltPresent(f0, f, FrameOf(a.cr3), lo, sp, ptrs, strs, done, next, 8);
      Write(a, mem, next, ToLe(vs[i], 8));
      BuiltWord(f0, f, mem.frames, FrameOf(a.cr3), lo, sp, ptrs, strs, done, vs[i]);
      assert done + [vs[i]] == words + vs[..i + 1];
      next := next + 8;
    }
    assert vs[..|vs|] == vs;
  }

  /** The auxiliary vector, tag and value by turns. */
  function Auxv(image: ElfImage, interpBase: Option<u64>, random: u64, platform: u64, execfn: u64): (v: seq<u64>)
    ensures |v| == 36
  {
    [AT_PHDR, image.phdr, AT_PHENT, image.phent, AT_PHNUM, image.phnum, AT_PAGESZ, 4096,
     AT_BASE, if interpBase.Some? then interpBase.value else 0, AT_FLAGS, 0, AT_ENTRY, image.entry,
     AT_UID, 0, AT_EUID, 0, AT_GID, 0, AT_EGID, 0, AT_SECURE, 0, AT_CLKTCK, 100, AT_HWCAP, 0,
     AT_RANDOM, random, AT_PLATFORM, platform, AT_EXECFN, execfn, AT_NULL, 0]
  }

  /** The block: argc, the argument pointers and NULL, the environment pointers and NULL, the auxv. */
  function Block(argc: nat, argv: seq<nat>, envp: seq<nat>, aux: seq<nat>): (words: seq<nat>)
    ensures |words| == 3 + |argv| + |envp| + |aux|
  {
    [argc] + argv + [0] + envp + [0] + aux
  }

  /** Where the strings of a finished stack are. */
  datatype Pointers = Pointers(argv: seq<u64>, envp: seq<u64>, random: u64, platform: u64, execfn: u64)

  ghost predicate StringsAt(f: map<nat, Frame>, root: nat, floor: nat, ptrs: seq<nat>, list: seq<seq<byte>>) {
    && |ptrs| == |list|
    && forall i :: 0 <= i < |list| ==> ptrs[i] >= floor && StringAt(f, root, ptrs[i], list[i])
  }

  /** A finished stack: every string through its pointer, all above the block at `base`. */
  ghost predicate StackImage(f: map<nat, Frame>, root: nat, base: nat, image: ElfImage, interpBase: Option<u64>,
                             argv: seq<seq<byte>>, envp: seq<seq<byte>>, execPath: seq<byte>, ptrs: Pointers) {
    var floor := base + 8 * BlockWords(argv, envp);
    && StringsAt(f, root, floor, ptrs.argv, argv) && StringsAt(f, root, floor, ptrs.envp, envp)
    && ptrs.platform >= floor && StringAt(f, root, ptrs.platform, PLATFORM)
    && ptrs.execfn >= floor && StringAt(f, root, ptrs.execfn, execPath)
    && ptrs.random >= floor && Holds(f, root, ptrs.random, RANDOM16)
    && BlockAt(f, root, base, Block(|argv|, ptrs.argv, ptrs.envp,
                                    Auxv(image, interpBase, ptrs.random, ptrs.platform, ptrs.execfn)))
  }

  lemma PlacedStrings(f: map<nat, Frame>, root: nat, sp: nat, ptrs: seq<nat>, strs: seq<seq<byte>>, floor: nat,
                      from: nat, mine: seq<nat>, list: seq<seq<byte>>)
    requires Placed(f, root, sp, ptrs, strs) && floor <= sp && from + |list| <= |ptrs| && |mine| == |list|
    requires forall i :: 0 <= i < |list| ==> ptrs[from + i] == mine[i] && strs[from + i] == list[i] + [0]
    ensures StringsAt(f, root, floor, mine, list)
  {
    hide Holds;
    forall i | 0 <= i < |list|
      ensures mine[i] >= floor && StringAt(f, root, mine[i], list[i])
    {
      assert ptrs[from + i] == mine[i] && strs[from + i] == list[i] + [0];
    }
  }

  lemma Layout(argv: seq<seq<byte>>, envp: seq<seq<byte>>, execPath: seq<byte>)
    ensures var s, need := StringsBase(argv, envp, execPath), 8 * BlockWords(argv, envp);
            var base := StackBase(argv, envp, execPath);
            base % 16 == 0 && base + need <= s < base + need + 16 && s <= STACK_TOP
  {
  }

  lemma PlacedAt(f: map<nat, Frame>, root: nat, sp: nat, ptrs: seq<nat>, strs: seq<seq<byte>>, i: nat)
    requires Placed(f, root, sp, ptrs, strs) && i < |strs|
    ensures i < |ptrs| && ptrs[i] >= sp && Holds(f, root, ptrs[i], strs[i])
  {
    hide Holds;
  }

  /** What has been built, part by part. */
  lemma BuiltParts(f0: map<nat, Frame>, f: map<nat, Frame>, root: nat, lo: nat, sp: nat, ptrs: seq<nat>,
                   strs: seq<seq<byte>>, words: seq<nat>)
    requires Built(f0, f, root, lo, sp, ptrs, strs, words)
    ensures Placed(f, root, sp, ptrs, strs) && BlockAt(f, root, lo, words) && OutsideSame(f0, f, root, lo, STACK_TOP)
    ensures lo + 8 * |words| <= sp
  {
    hide Placed, BlockAt, OutsideSame, PresentFrom;
  }

  /** Write the pointer block up from `base`. */
  method WriteBlock(a: AddressSpace, mem: PhysMem, base: u64, argvPtrs: seq<u64>, envpPtrs: seq<u64>, aux: seq<u64>,
                    ghost f0: map<nat, Frame>, ghost sp: nat, ghost ptrs: seq<nat>, ghost strs: seq<seq<byte>>)
    requires a.Valid(mem) && a.Fits() && base + 8 * (3 + |argvPtrs| + |envpPtrs| + |aux|) <= sp <= STACK_TOP
    requires Built(f0, mem.frames, FrameOf(a.cr3), base, sp, ptrs, strs, [])
    modifies mem
    ensures a.Valid(mem) && a.Pages(mem) == old(a.Pages(mem))
    ensures Built(f0, mem.frames, FrameOf(a.cr3), base, sp, ptrs, strs, Block(|argvPtrs|, argvPtrs, envpPtrs, aux))
  {
    hide AddressSpace.Valid, AddressSpace.Pages, AddressSpace.Fits, FrameOf, Built;
    var p := WriteWords(a, mem, base, [|argvPtrs|], f0, base, sp, ptrs, strs, []);
    ghost var words: seq<nat> := [] + [|argvPtrs|];
    p := WriteWords(a, mem, p, argvPtrs, f0, base, sp, ptrs, strs, words);
    words := words + argvPtrs;
    p := WriteWords(a, mem, p, [0], f0, base, sp, ptrs, strs, words);
    words := words + [0];
    p := WriteWords(a, mem, p, envpPtrs, f0, base, sp, ptrs, strs, words);
    words := words + envpPtrs;
    p := WriteWords(a, mem, p, [0], f0, base, sp, ptrs, strs, words);
    words := words + [0];
    p := WriteWords(a, mem, p, aux, f0, base, sp, ptrs, strs, words);
    assert words + aux == Block(|argvPtrs|, argvPtrs, envpPtrs, aux);
  }

  /** Every string of the stack in the order they are pushed, and where it goes. */
  ghost function AllStrings(argv: seq<seq<byte>>, envp: seq<seq<byte>>, execPath: seq<byte>): seq<seq<byte>> {
    Terminated(argv) + Terminated(envp) + [PLATFORM + [0]] + [execPath + [0]] + [RANDOM16]
  }

  ghost function AllPointers(p: Pointers): seq<nat> {
    p.argv + p.envp + [p.platform] + [p.execfn] + [p.random]
  }

  /** Push the strings, from the top of the stack down. */
  method PushStrings(a: AddressSpace, mem: PhysMem, argv: seq<seq<byte>>, envp: seq<seq<byte>>, execPath: seq<byte>,
                     ghost lo: nat) returns (ptrs: Pointers)
    requires a.Valid(mem) && a.Fits() && lo <= StringsBase(argv, envp, execPath)
    requires PresentFrom(mem.frames, FrameOf(a.cr3), lo, STACK_TOP)
    modifies mem
    ensures a.Valid(mem) && a.Pages(mem) == old(a.Pages(mem))
    ensures |ptrs.argv| == |argv| && |ptrs.envp| == |envp| && ptrs.random == StringsBase(argv, envp, execPath)
    ensures Built(old(mem.frames), mem.frames, FrameOf(a.cr3), lo, ptrs.random, AllPointers(ptrs),
                  AllStrings(argv, envp, execPath), [])
  {
    hide AddressSpace.Valid, AddressSpace.Pages, AddressSpace.Fits, FrameOf, Built, StringBytes, PresentFrom;
    ghost var f0 := mem.frames;
    BuiltStart(f0, FrameOf(a.cr3), lo);
    var sp: u64, argvPtrs: seq<u64> := PushAll(a, mem, STACK_TOP, argv, f0, lo, [], []);
    ghost var all: seq<nat>, strs := [] + argvPtrs, [] + Terminated(argv);
    var envpPtrs: seq<u64>;
    sp, envpPtrs := PushAll(a, mem, sp, envp, f0, lo, all, strs);
    all, strs := all + envpPtrs, strs + Terminated(envp);
    var platform := Push(a, mem, sp, PLATFORM + [0], f0, lo, all, strs);
    all, strs := all + [platform], strs + [PLATFORM + [0]];
    var execfn := Push(a, mem, platform, execPath + [0], f0, lo, all, strs);
    all, strs := all + [execfn], strs + [execPath + [0]];
    var random := Push(a, mem, execfn, RANDOM16, f0, lo, all, strs);
    ptrs := Pointers(argvPtrs, envpPtrs, random, platform, execfn);
    assert all + [random] == AllPointers(ptrs) && strs + [RANDOM16] == AllStrings(argv, envp, execPath);
  }

  /** Where the elements of two lists and three more are, once joined. */
  lemma Joined<T>(u: seq<T>, v: seq<T>, x: T, y: T, z: T)
    ensures var w, n := u + v + [x] + [y] + [z], |u| + |v|;
            && |w| == n + 3 && w[n] == x && w[n + 1] == y && w[n + 2] == z
            && (forall i :: 0 <= i < |u| ==> w[i] == u[i])
            && (forall i :: 0 <= i < |v| ==> w[|u| + i] == v[i])
  {
  }

  /** Each string is at its own place in the order. */
  lemma Places(argv: seq<seq<byte>>, envp: seq<seq<byte>>, execPath: seq<byte>, p: Pointers)
    requires |p.argv| == |argv| && |p.envp| == |envp|
    ensures var all, strs, n := AllPointers(p), AllStrings(argv, envp, execPath), |argv| + |envp|;
            && |all| == |strs| == n + 3
            && (forall i :: 0 <= i < |argv| ==> all[i] == p.argv[i] && strs[i] == argv[i] + [0])
            && (forall i :: 0 <= i < |envp| ==> all[|argv| + i] == p.envp[i] && strs[|argv| + i] == envp[i] + [0])
            && all[n] == p.platform && strs[n] == PLATFORM + [0]
            && all[n + 1] == p.execfn && strs[n + 1] == execPath + [0]
            && all[n + 2] == p.random && strs[n + 2] == RANDOM16
  {
    var x, y, z := PLATFORM + [0], execPath + [0], RANDOM16;
    Joined<nat>(p.argv, p.envp, p.platform, p.execfn, p.random);
    Joined(Terminated(argv), Terminated(envp), x, y, z);
  }

  /** Build the initial stack below `STACK_TOP` and give the entry stack pointer. */
  method BuildStack(a: AddressSpace, mem: PhysMem, image: ElfImage, interpBase: Option<u64>, argv: seq<seq<byte>>,
                    envp: seq<seq<byte>>, execPath: seq<byte>) returns (base: u64, ghost ptrs: Pointers)
    requires a.Valid(mem) && a.Fits() && StackBase(argv, envp, execPath) >= 0
    requires PresentFrom(mem.frames, FrameOf(a.cr3), StackBase(argv, envp, execPath), STACK_TOP)
    modifies mem
    ensures a.Valid(mem) && a.Pages(mem) == old(a.Pages(mem))
    ensures base == StackBase(argv, envp, execPath) && base % 16 == 0
    ensures StackImage(mem.frames, FrameOf(a.cr3), base, image, interpBase, argv, envp, execPath, ptrs)
    ensures OutsideSame(old(mem.frames), mem.frames, FrameOf(a.cr3), base, STACK_TOP)
  {
    hide AddressSpace.Valid, AddressSpace.Pages, AddressSpace.Fits, FrameOf, Built, StringsBase, PresentFrom, Auxv,
      Placed, BlockAt, StringsAt, Holds, OutsideSame, Block, AllStrings, AllPointers;
    ghost var f0, root := mem.frames, FrameOf(a.cr3);
    Layout(argv, envp, execPath);
    var p := PushStrings(a, mem, argv, envp, execPath, StackBase(argv, envp, execPath));
    ptrs := p;
    var aux := Auxv(image, interpBase, p.random, p.platform, p.execfn);
    var need := (1 + (|p.argv| + 1) + (|p.envp| + 1) + |aux|) * 8;
    base := (p.random - need) / 16 * 16;
    ghost var all, strs := AllPointers(p), AllStrings(argv, envp, execPath);
    WriteBlock(a, mem, base, p.argv, p.envp, aux, f0, p.random, all, strs);
    ghost var floor, n := base + 8 * BlockWords(argv, envp), |argv| + |envp|;
    Places(argv, envp, execPath, p);
    BuiltParts(f0, mem.frames, root, base, p.random, all, strs, Block(|argv|, p.argv, p.envp, aux));
    PlacedStrings(mem.frames, root, p.random, all, strs, floor, 0, p.argv, argv);
    PlacedStrings(mem.frames, root, p.random, all, strs, floor, |argv|, p.envp, envp);
    PlacedAt(mem.frames, root, p.random, all, strs, n);
    PlacedAt(mem.frames, root, p.random, all, strs, n + 1);
    PlacedAt(mem.frames, root, p.random, all, strs, n + 2);
  }

  // --- With the stack mapped first -------------------------------------------------------------

  /** Bytes of stack mapped before the program starts. */
  const INIT_STACK: nat := 0x4_0000

  lemma PresentAfterMap(a: Tables, b: Tables, lo: nat, hi: nat)
    requires a.Good() && Grown(a, b, lo, hi, true) && lo % 4096 == 0 && hi % 4096 == 0
    ensures b.root == a.root && PresentFrom(b.frames, b.root, lo, hi)
  {
    hide GuestByte, PagesIn, PageOf, MapProgress, View, Grown, Tables.Good;
    GrownKeys(a, b, lo, hi, true);
    forall x: nat | lo <= x < hi
      ensures GuestByte(b.frames, b.root, x).Some?
    {
      PageInRange(x, lo / 4096, hi / 4096);
      ByteThroughView(a, x);
    }
  }

  lemma WholeStack()
    ensures RangeEnd(STACK_TOP - INIT_STACK, INIT_STACK) == STACK_TOP
    ensures PageDown(STACK_TOP - INIT_STACK) == STACK_TOP - INIT_STACK
  {
  }

  /** Reserve the initial stack and build it: all that is needed beforehand is frames to map it with, and strings
      that fit it. */
  method SpawnStack(a: AddressSpace, mem: PhysMem, image: ElfImage, interpBase: Option<u64>, argv: seq<seq<byte>>,
                    envp: seq<seq<byte>>, execPath: seq<byte>) returns (base: u64, ghost ptrs: Pointers)
    requires a.Valid(mem) && a.nextPhys + 4 * INIT_STACK <= PHYS_LIMIT
    requires StackBase(argv, envp, execPath) >= STACK_TOP - INIT_STACK
    modifies a`nextPhys, a`own, a`vmas, mem
    ensures a.Valid(mem) && a.Fits() && base == StackBase(argv, envp, execPath) && base % 16 == 0
    ensures a.vmas == old(a.vmas) + [Vma(STACK_TOP - INIT_STACK, STACK_TOP, 3, Stack)]
    ensures StackImage(mem.frames, FrameOf(a.cr3), base, image, interpBase, argv, envp, execPath, ptrs)
    ensures old(a.AllCovered(mem)) ==> a.AllCovered(mem)
    ensures old(a.ArenaClear(mem)) ==> a.ArenaClear(mem)
  {
    hide AddressSpace.Valid, FrameOf, Covered, ArenaFree, Grown, StackImage, StackBase, OutsideSame, PresentFrom,
      Tables.Good, Tables.Pages, RangeEnd, PageDown;
    ghost var before := a.Snap(mem);
    WholeStack();
    a.ValidTables(mem);
    a.Map(mem, STACK_TOP - INIT_STACK, INIT_STACK, PROT_READ + PROT_WRITE, Stack);
    assert Writes(PROT_READ + PROT_WRITE);
    PresentAfterMap(before, a.Snap(mem), STACK_TOP - INIT_STACK, STACK_TOP);
    PresentLess(mem.frames, FrameOf(a.cr3), STACK_TOP - INIT_STACK, StackBase(argv, envp, execPath));
    base, ptrs := BuildStack(a, mem, image, interpBase, argv, envp, execPath);
  }

  lemma PresentLess(f: map<nat, Frame>, root: nat, lo: nat, lo': nat)
    requires PresentFrom(f, root, lo, STACK_TOP) && lo <= lo'
    ensures PresentFrom(f, root, lo', STACK_TOP)
  {
    hide GuestByte;
  }

  // --- Reading it back -----------------------------------------------------------------------

  /** A 64-bit word of guest memory. */
  method ReadWord(a: AddressSpace, mem: PhysMem, lin: u64) returns (v: Option<nat>)
    ensures forall w: nat :: w < WORD && Holds(mem.frames, FrameOf(a.cr3), lin, ToLe(w, 8)) ==> v == Some(w)
  {
    hide FrameOf, Holds, GuestAt, ToLe, FromLe;
    var buf := new byte[8];
    var ok, done := a.ReadBytes(mem, lin, buf);
    forall w: nat | w < WORD && Holds(mem.frames, FrameOf(a.cr3), lin, ToLe(w, 8))
      ensures ok && FromLe(buf[..]) == w
    {
      SameHeld(mem.frames, FrameOf(a.cr3), lin, buf[..done], ToLe(w, 8));
      WordSize();
      LeRoundTrip(w, 8);
      assert ok ==> buf[..] == buf[..done] == ToLe(w, 8);
    }
    if !ok {
      return None;
    }
    return Some(FromLe(buf[..]));
  }

  /** Follow `n` pointers from `p` to the strings they name. */
  method ReadVector(a: AddressSpace, mem: PhysMem, p: u64, n: nat, max: nat, ghost ptrs: seq<u64>,
                    ghost list: seq<seq<byte>>) returns (r: seq<seq<byte>>)
    requires p + 8 * n <= U64_MAX && n == |ptrs| == |list|
    requires BlockAt(mem.frames, FrameOf(a.cr3), p, ptrs)
    requires StringsAt(mem.frames, FrameOf(a.cr3), 0, ptrs, list)
    requires forall i :: 0 <= i < n ==> NulFree(list[i]) && |list[i]| < max
    ensures r == list
  {
    hide FrameOf, Holds, ToLe, NulFree, StringAt;
    r := [];
    for i := 0 to n
      invariant r == list[..i]
    {
      var word := ReadWord(a, mem, p + 8 * i);
      assert word == Some(ptrs[i]);
      var text := a.ReadCstr(mem, word.value, max);
      assert text == Some(list[i]);
      r := r + [text.value];
    }
  }

  /** The `n` words from `p` up. */
  method ReadWords(a: AddressSpace, mem: PhysMem, p: u64, n: nat, ghost words: seq<nat>) returns (r: seq<nat>)
    requires p + 8 * n <= U64_MAX && n == |words| && BlockAt(mem.frames, FrameOf(a.cr3), p, words)
    requires forall i :: 0 <= i < n ==> words[i] < WORD
    ensures r == words
  {
    hide FrameOf, Holds, ToLe;
    r := [];
    for i := 0 to n
      invariant r == words[..i]
    {
      var word := ReadWord(a, mem, p + 8 * i);
      assert word == Some(words[i]);
      r := r + [word.value];
    }
  }

  /** What `_start` finds: the argument count, both vectors and the auxiliary vector, as they went in, with the
      auxiliary strings where it says. */
  method BuildAndRead(a: AddressSpace, mem: PhysMem, image: ElfImage, interpBase: Option<u64>, argv: seq<seq<byte>>,
                      envp: seq<seq<byte>>, execPath: seq<byte>, max: nat)
    returns (argc: Option<nat>, args: seq<seq<byte>>, argvEnd: Option<nat>, env: seq<seq<byte>>, envpEnd: Option<nat>,
             aux: seq<nat>, ghost ptrs: Pointers)
    requires a.Valid(mem) && a.Fits() && StackBase(argv, envp, execPath) >= 0
    requires PresentFrom(mem.frames, FrameOf(a.cr3), StackBase(argv, envp, execPath), STACK_TOP)
    requires forall s :: s in argv || s in envp ==> NulFree(s) && |s| < max
    modifies mem
    ensures argc == Some(|argv|) && args == argv && env == envp && argvEnd == envpEnd == Some(0)
    ensures aux == Auxv(image, interpBase, ptrs.random, ptrs.platform, ptrs.execfn)
    ensures StringAt(mem.frames, FrameOf(a.cr3), ptrs.platform, PLATFORM)
    ensures StringAt(mem.frames, FrameOf(a.cr3), ptrs.execfn, execPath)
    ensures Holds(mem.frames, FrameOf(a.cr3), ptrs.random, RANDOM16)
  {
    hide AddressSpace.Valid, AddressSpace.Pages, AddressSpace.Fits, FrameOf, StringBytes, PresentFrom, Auxv, Holds,
      OutsideSame, NulFree, StringAt, ToLe, StackImage, StackBase, StringsAt, BlockAt;
    var base;
    base, ptrs := BuildStack(a, mem, image, interpBase, argv, envp, execPath);
    Layout(argv, envp, execPath);
    ImageWords(mem.frames, FrameOf(a.cr3), base, image, interpBase, argv, envp, execPath, ptrs);
    argc := ReadWord(a, mem, base);
    args := ReadVector(a, mem, base + 8, |argv|, max, ptrs.argv, argv);
    argvEnd := ReadWord(a, mem, base + 8 + 8 * |argv|);
    env := ReadVector(a, mem, base + 16 + 8 * |argv|, |envp|, max, ptrs.envp, envp);
    envpEnd := ReadWord(a, mem, base + 16 + 8 * |argv| + 8 * |envp|);
    aux := ReadWords(a, mem, base + 24 + 8 * |argv| + 8 * |envp|, 36,
                     Auxv(image, interpBase, ptrs.random, ptrs.platform, ptrs.execfn));
  }

  lemma ImageWords(f: map<nat, Frame>, root: nat, base: nat, image: ElfImage, interpBase: Option<u64>,
                   argv: seq<seq<byte>>, envp: seq<seq<byte>>, execPath: seq<byte>, ptrs: Pointers)
    requires StackImage(f, root, base, image, interpBase, argv, envp, execPath, ptrs)
    ensures |ptrs.argv| == |argv| && |ptrs.envp| == |envp|
    ensures StringsAt(f, root, 0, ptrs.argv, argv) && StringsAt(f, root, 0, ptrs.envp, envp)
    ensures Holds(f, root, base, ToLe(|argv|, 8)) && BlockAt(f, root, base + 8, ptrs.argv)
    ensures Holds(f, root, base + 8 + 8 * |argv|, ToLe(0, 8))
    ensures BlockAt(f, root, base + 16 + 8 * |argv|, ptrs.envp)
    ensures Holds(f, root, base + 16 + 8 * |argv| + 8 * |envp|, ToLe(0, 8))
    ensures BlockAt(f, root, base + 24 + 8 * |argv| + 8 * |envp|,
                    Auxv(image, interpBase, ptrs.random, ptrs.platform, ptrs.execfn))
    ensures StringAt(f, root, ptrs.platform, PLATFORM) && StringAt(f, root, ptrs.execfn, execPath)
    ensures Holds(f, root, ptrs.random, RANDOM16)
  {
    hide Holds, StringAt, ToLe, Auxv, BlockAt, StringsAt, Block;
    LowerFloor(f, root, base + 8 * BlockWords(argv, envp), ptrs.argv, argv);
    LowerFloor(f, root, base + 8 * BlockWords(argv, envp), ptrs.envp, envp);
    BlockParts(f, root, base, |argv|, ptrs.argv, ptrs.envp,
               Auxv(image, interpBase, ptrs.random, ptrs.platform, ptrs.execfn));
  }

  lemma BlockParts(f: map<nat, Frame>, root: nat, base: nat, argc: nat, argv: seq<nat>, envp: seq<nat>, aux: seq<nat>)
    requires BlockAt(f, root, base, Block(argc, argv, envp, aux))
    ensures Holds(f, root, base, ToLe(argc, 8)) && BlockAt(f, root, base + 8, argv)
    ensures Holds(f, root, base + 8 + 8 * |argv|, ToLe(0, 8))
    ensures BlockAt(f, root, base + 16 + 8 * |argv|, envp)
    ensures Holds(f, root, base + 16 + 8 * |argv| + 8 * |envp|, ToLe(0, 8))
    ensures BlockAt(f, root, base + 24 + 8 * |argv| + 8 * |envp|, aux)
  {
    hide Holds, ToLe, BlockAt;
    SplitBlock(f, root, base, [argc] + argv + [0] + envp + [0], aux);
    SplitBlock(f, root, base, [argc] + argv + [0] + envp, [0]);
    SplitBlock(f, root, base, [argc] + argv + [0], envp);
    SplitBlock(f, root, base, [argc] + argv, [0]);
    SplitBlock(f, root, base, [argc], argv);
    OneWord(f, root, base, argc);
    OneWord(f, root, base + 8 + 8 * |argv|, 0);
    OneWord(f, root, base + 16 + 8 * |argv| + 8 * |envp|, 0);
  }

  lemma SplitBlock(f: map<nat, Frame>, root: nat, base: nat, u: seq<nat>, v: seq<nat>)
    requires BlockAt(f, root, base, u + v)
    ensures BlockAt(f, root, base, u) && BlockAt(f, root, base + 8 * |u|, v)
  {
    hide Holds, ToLe;
    forall k: nat | k < |u|
      ensures Holds(f, root, base + 8 * k, ToLe(u[k], 8))
    {
      assert (u + v)[k] == u[k];
    }
    forall k: nat | k < |v|
      ensures Holds(f, root, base + 8 * |u| + 8 * k, ToLe(v[k], 8))
    {
      assert (u + v)[|u| + k] == v[k] && base + 8 * (|u| + k) == base + 8 * |u| + 8 * k;
    }
  }

  lemma OneWord(f: map<nat, Frame>, root: nat, addr: nat, v: nat)
    requires BlockAt(f, root, addr, [v])
    ensures Holds(f, root, addr, ToLe(v, 8))
  {
    hide Holds, ToLe;
    assert [v][0] == v && addr + 8 * 0 == addr;
  }

  lemma LowerFloor(f: map<nat, Frame>, root: nat, floor: nat, ptrs: seq<nat>, list: seq<seq<byte>>)
    requires StringsAt(f, root, floor, ptrs, list)
    ensures StringsAt(f, root, 0, ptrs, list) && |ptrs| == |list|
  {
    hide StringAt;
  }
}
