/** One instruction with its prefixes, and whole runs of them, on either path: with the decoupled decoder for
    the hot subset, and with the direct interpreter alone. */
module I386Steps {
  import opened I386Machine
  import opened I386Hot
  import opened I386Equivalence
  import opened I386Decoupled

  /** What the prefix scan has seen: sizes and segment override, LOCK and REP, and how many bytes. */
  datatype Prefixes = Prefixes(c: Context, lock: Lock, count: nat) {
    /** Without LOCK and REP, which never reach the decoder. */
    predicate Plain() {
      !lock.lock && lock.rep == None
    }
  }

  /** The prefixes an instruction starts with in a code segment of the given default size. */
  function NoPrefixes(code32: bool, extensions: bool): Prefixes {
    Prefixes(Context(code32, code32, None, extensions), Lock(false, None), 0)
  }

  /** The segment an override prefix names, ES CS SS DS FS GS. */
  function Override(b: u8): Option<bv8> {
    if b == 0x26 then Some(0) else if b == 0x2E then Some(1) else if b == 0x36 then Some(2)
    else if b == 0x3E then Some(3) else if b == 0x64 then Some(4) else if b == 0x65 then Some(5) else None
  }

  predicate IsPrefix(b: u8) {
    Override(b).Some? || b == 0x66 || b == 0x67 || b == 0xF0 || b == 0xF2 || b == 0xF3
  }

  function WithPrefix(p: Prefixes, b: u8, code32: bool): Prefixes
    requires IsPrefix(b)
  {
    var q := p.(count := p.count + 1);
    if Override(b).Some? then q.(c := p.c.(segOverride := Override(b)))
    else if b == 0x66 then q.(c := p.c.(osize32 := !code32))
    else if b == 0x67 then q.(c := p.c.(asize32 := !code32))
    else if b == 0xF0 then q.(lock := p.lock.(lock := true))
    else q.(lock := p.lock.(rep := Some(b == 0xF3)))
  }

  /** Consume prefix bytes; the opcode byte and what they said. The length limit ends the scan. */
  function Scan<F, M>(hw: Hardware<F, M>, s: S<F, M>, p: Prefixes, code32: bool): Out<F, M, (u8, Prefixes)>
    decreases 15 - s.ilen
  {
    var (s1, b) :- Fetch8(hw, s);
    if IsPrefix(b) then Scan(hw, s1, WithPrefix(p, b, code32), code32) else Ok(s1, (b, p))
  }

  /** The prefixes and opcode of the instruction at EIP. */
  function Start<F, M>(hw: Hardware<F, M>, extensions: bool, s: S<F, M>): Out<F, M, (u8, Prefixes)> {
    var code32 := hw.code32(s.mem);
    Scan(hw, s.(ilen := 0), NoPrefixes(code32, extensions), code32)
  }

  /** One instruction: cycles are the prefix count and the handler's. */
  function OneStep<F, M>(hw: Hardware<F, M>, extensions: bool, s: S<F, M>, hot: bool): Out<F, M, nat> {
    var (s1, p) :- Start(hw, extensions, s);
    AfterScan(hw, s1, p.0, p.1, hot)
  }

  function AfterScan<F, M>(hw: Hardware<F, M>, s: S<F, M>, opcode: u8, p: Prefixes, hot: bool): Out<F, M, nat> {
    var (s1, n) :- if !p.Plain() then hw.locked(p.c, p.lock, s, opcode)
                   else if hot then Decoupled(hw, p.c, s, opcode, p.count)
                   else Dispatch(hw, p.c, s, opcode);
    Ok(s1, p.count + n)
  }

  lemma {:induction false} ScanEncodable<F, M>(hw: Hardware<F, M>, s: S<F, M>, p: Prefixes, code32: bool)
    requires Encodable(p.c)
    ensures var o := Scan(hw, s, p, code32); o.Ok? ==> Encodable(o.v.1.c) && o.v.1.c.extensions == p.c.extensions
    decreases 15 - s.ilen
  {
    var o := Fetch8(hw, s);
    if o.Ok? && IsPrefix(o.v) {
      ScanEncodable(hw, o.s, WithPrefix(p, o.v, code32), code32);
    }
  }

  lemma StartEncodable<F, M>(hw: Hardware<F, M>, extensions: bool, s: S<F, M>)
    ensures var o := Start(hw, extensions, s); o.Ok? ==> Encodable(o.v.1.c) && o.v.1.c.extensions == extensions
  {
    hide Scan;
    ScanEncodable(hw, s.(ilen := 0), NoPrefixes(hw.code32(s.mem), extensions), hw.code32(s.mem));
  }

  /** The two paths of one instruction, any prefixes and any opcode. */
  lemma OneStepAgrees<F, M>(hw: Hardware<F, M>, extensions: bool, s: S<F, M>)
    ensures Same(OneStep(hw, extensions, s, true), OneStep(hw, extensions, s, false))
  {
    hide Start, Decoupled, Dispatch, Encodable;
    StartEncodable(hw, extensions, s);
    var o := Start(hw, extensions, s);
    if o.Ok? && o.v.1.Plain() {
      DecoupledIsFused(hw, o.v.1.c, o.s, o.v.0, o.v.1.count);
    }
  }

  // --- Runs ------------------------------------------------------------------------------------------------

  /** Between instructions the length count says nothing: the next fetch starts it afresh. */
  function Boundary<F, M>(s: S<F, M>): S<F, M> {
    s.(ilen := 0)
  }

  /** The end of a run. */
  datatype End<F, M> = End(s: S<F, M>, cycles: nat)

  /** `n` instructions, each followed by the delivery of its fault if it has one, and each preceded by whatever
      happens between instructions: interrupts, traps, host writes. */
  function Steps<F, M>(hw: Hardware<F, M>, extensions: bool, between: (nat, S<F, M>) -> S<F, M>, s: S<F, M>, n: nat,
                       hot: bool): End<F, M>
    decreases n
  {
    if n == 0 then End(Boundary(s), 0)
    else
      var t := between(n, Boundary(s));
      var r := Epilogue(hw, t, OneStep(hw, extensions, t, hot));
      Later(Steps(hw, extensions, between, r.0, n - 1, hot), r.1)
  }

  function Later<F, M>(r: End<F, M>, cycles: nat): End<F, M> {
    r.(cycles := cycles + r.cycles)
  }

  /** Whole runs with the decoder are runs of the direct interpreter: through hot and cold instructions, faults and
      interrupts, for any number of instructions. */
  lemma {:induction false} RunsAgree<F, M>(hw: Hardware<F, M>, extensions: bool, between: (nat, S<F, M>) -> S<F, M>,
                                           s: S<F, M>, n: nat)
    ensures Steps(hw, extensions, between, s, n, true) == Steps(hw, extensions, between, s, n, false)
    decreases n
  {
    hide OneStep;
    if n > 0 {
      var t := between(n, Boundary(s));
      OneStepAgrees(hw, extensions, t);
      RunsAgree(hw, extensions, between, Epilogue(hw, t, OneStep(hw, extensions, t, true)).0, n - 1);
    }
  }
}
