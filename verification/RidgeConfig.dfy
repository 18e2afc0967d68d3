/**
  Saving and restoring the configuration of the Thunderbolt bridge tree: the snapshot that
  `_INI` takes, and the staged, read-back-checked restore `CNHI`.

  Reads are adversarial: the hardware may answer anything, also to the read of the dword that
  belongs to the store of a narrower field. A result that needs more says so: that writes are
  accepted (`accepts`), or that reads are answered truthfully as well (`honest`).
 */
module RidgeConfig {
  import opened Common
  import opened ConfigSpace

  datatype Unit = RP | UPSB | DSB0 | DSB1 | DSB2 | NHI

  /** A register: a field at an offset of a unit's configuration space. */
  datatype Reg = Reg(unit: Unit, off: nat)

  // Offsets of the fields that the code declares.
  const VENDOR: nat := 0x00
  const COMMAND: nat := 0x04
  const BAR0: nat := 0x10
  const BAR1: nat := 0x14
  const PRIMARY: nat := 0x18
  const SECONDARY: nat := 0x19
  const SUBORDINATE: nat := 0x1A
  const IO: nat := 0x1C
  const MEMORY: nat := 0x20
  const PREFETCH: nat := 0x24
  const BASE_UPPER: nat := 0x28
  const LIMIT_UPPER: nat := 0x2C
  const RP_LINK: nat := 0x52
  const PORT_LINK: nat := 0xD2
  const VES: nat := 0x564

  /** Field widths in bytes. */
  function Width(off: nat): nat {
    if off in {COMMAND, PRIMARY, SECONDARY, SUBORDINATE} then 1
    else if off in {IO, RP_LINK, PORT_LINK} then 2
    else 4
  }

  const R_20 := Reg(RP, MEMORY)
  const RPR4 := Reg(RP, COMMAND)
  const RPLT := Reg(RP, RP_LINK)       // bit 11
  const UPVD := Reg(UPSB, VENDOR)
  const UP19 := Reg(UPSB, SECONDARY)
  const UPLT := Reg(UPSB, PORT_LINK)   // bit 11
  const DP19 := Reg(DSB0, SECONDARY)
  const DP2C := Reg(DSB0, LIMIT_UPPER)
  const DPLT := Reg(DSB0, PORT_LINK)   // bit 11
  const NH10 := Reg(NHI, BAR0)

  /** The registers that CNHI writes. */
  predicate Planned(r: Reg) {
    match r.unit
    case RP => r.off in {COMMAND, MEMORY, PREFETCH, BASE_UPPER, LIMIT_UPPER}
    case NHI => r.off in {COMMAND, BAR0, BAR1}
    case _ =>
      r.off in {COMMAND, PRIMARY, SECONDARY, SUBORDINATE, IO, MEMORY, PREFETCH, BASE_UPPER, LIMIT_UPPER}
      || (r.unit == DSB2 && r.off == VES)
  }

  /** The registers that _INI saves: all of those but the commands and, an oversight of the code, DP2C. */
  predicate Snapshotted(r: Reg) {
    Planned(r) && r.off != COMMAND && r != DP2C
  }

  function BusRegs(u: Unit): set<Reg> {
    {Reg(u, PRIMARY), Reg(u, SECONDARY), Reg(u, SUBORDINATE), Reg(u, IO)}
  }

  function WindowRegs(u: Unit): set<Reg> {
    {Reg(u, MEMORY), Reg(u, PREFETCH), Reg(u, BASE_UPPER)} + if u == DSB0 then {} else {Reg(u, LIMIT_UPPER)}
  }

  lemma SnapshotIsTotal(regs: set<Reg>)
    requires forall u :: u in {UPSB, DSB0, DSB1, DSB2} ==> BusRegs(u) <= regs
    requires forall u :: u != NHI ==> WindowRegs(u) <= regs
    requires {Reg(DSB2, VES), NH10, Reg(NHI, BAR1)} <= regs
    ensures forall r :: Snapshotted(r) ==> r in regs
  {
    forall r | Snapshotted(r)
      ensures r in regs
    {
      assert r.unit != NHI ==> WindowRegs(r.unit) <= regs;
      assert r.unit in {UPSB, DSB0, DSB1, DSB2} ==> BusRegs(r.unit) <= regs;
      assert r == Reg(r.unit, r.off);
    }
  }

  /** The registers by their numbers: what CNHI writes, what _INI saves, and how wide they are. */
  lemma RegistersByNumber(u: Unit, off: nat)
    ensures Planned(Reg(u, off)) <==>
            || (u == RP && off in {0x04, 0x20, 0x24, 0x28, 0x2C})
            || (u == NHI && off in {0x04, 0x10, 0x14})
            || (u != RP && u != NHI && off in {0x04, 0x18, 0x19, 0x1A, 0x1C, 0x20, 0x24, 0x28, 0x2C})
            || (u == DSB2 && off == 0x564)
    ensures Snapshotted(Reg(u, off)) <==> Planned(Reg(u, off)) && off != 0x04 && !(u == DSB0 && off == 0x2C)
    ensures Planned(Reg(u, off)) ==>
              Width(off) == if off in {0x04, 0x18, 0x19, 0x1A} then 1 else if off == 0x1C then 2 else 4
  {
  }

  /** The Name objects (R020, R118, ...), by the register they shadow; each starts as Zero. */
  type Names = map<Reg, nat>

  /** The value that CNHI writes into a register. */
  function Plan(saved: Names, r: Reg): nat {
    if r.off == COMMAND then 7 else Saved(saved, r)
  }

  function Saved(saved: Names, r: Reg): nat {
    if r in saved then saved[r] else 0
  }

  /** Where each unit's configuration space is mapped. */
  datatype Layout = Layout(rp: nat, upsb: nat, dsb0: nat, dsb1: nat, dsb2: nat, nhi: nat) {
    function Base(u: Unit): nat {
      match u
      case RP => rp
      case UPSB => upsb
      case DSB0 => dsb0
      case DSB1 => dsb1
      case DSB2 => dsb2
      case NHI => nhi
    }

    function Address(r: Reg): nat {
      Base(r.unit) + r.off
    }

    /** Page-aligned windows of 4 KiB that do not overlap, inside `size` bytes. */
    ghost predicate Fits(size: nat) {
      && (forall u :: Base(u) % 0x1000 == 0 && Base(u) + 0x1000 <= size)
      && (forall u, u' :: u != u' ==> Base(u) != Base(u'))
    }
  }

  function TreeWindows(gpcb: nat, up19: nat, dp19: nat): set<nat> {
    {MMIO(gpcb, up19, 0, 0), MMIO(gpcb, up19, 1, 0), MMIO(gpcb, up19, 2, 0), MMIO(gpcb, dp19, 0, 0)}
  }

  /**
    The windows that the code computes: the downstream bridges on the bus behind the upstream
    port, the host interface on the bus behind DSB0. Beside a root port and an upstream port
    elsewhere, they fit exactly when those two bus numbers differ.
   */
  lemma TreeLayoutFits(gpcb: nat, up19: nat, dp19: nat, rp: nat, upsb: nat, size: nat)
    requires gpcb % 0x1000 == 0 && rp % 0x1000 == 0 && upsb % 0x1000 == 0 && rp != upsb
    requires MMIO(gpcb, up19, 3, 0) <= size && MMIO(gpcb, dp19, 1, 0) <= size
    requires rp + 0x1000 <= size && upsb + 0x1000 <= size
    requires rp !in TreeWindows(gpcb, up19, dp19) && upsb !in TreeWindows(gpcb, up19, dp19)
    ensures Layout(rp, upsb, MMIO(gpcb, up19, 0, 0), MMIO(gpcb, up19, 1, 0), MMIO(gpcb, up19, 2, 0),
                   MMIO(gpcb, dp19, 0, 0)).Fits(size)
            <==> up19 != dp19
  {
    var at := Layout(rp, upsb, MMIO(gpcb, up19, 0, 0), MMIO(gpcb, up19, 1, 0), MMIO(gpcb, up19, 2, 0),
                     MMIO(gpcb, dp19, 0, 0));
    hide MMIO;
    TreeWindow(gpcb, up19, 0);
    TreeWindow(gpcb, up19, 1);
    TreeWindow(gpcb, up19, 2);
    TreeWindow(gpcb, dp19, 0);
    if up19 == dp19 {
      assert at.Base(DSB0) == at.Base(NHI);
    } else {
      DifferentWindows(gpcb, up19, dp19);
    }
  }

  /** A device's window is page-aligned and ends before that of the next device. */
  lemma TreeWindow(gpcb: nat, bus: nat, device: nat)
    requires gpcb % 0x1000 == 0
    ensures MMIO(gpcb, bus, device, 0) % 0x1000 == 0
    ensures MMIO(gpcb, bus, device, 0) + 0x1000 <= MMIO(gpcb, bus, device + 1, 0)
  {
    var k := gpcb / 0x1000;
    assert MMIO(gpcb, bus, device, 0) == 0x1000 * (k + 0x100 * bus + 8 * device);
  }

  lemma DifferentWindows(gpcb: nat, up19: nat, dp19: nat)
    requires up19 != dp19
    ensures MMIO(gpcb, dp19, 0, 0) !in {MMIO(gpcb, up19, 0, 0), MMIO(gpcb, up19, 1, 0), MMIO(gpcb, up19, 2, 0)}
  {
  }

  /** A register holds `Width` bytes, inside its window and inside one dword. */
  ghost predicate InWindow(r: Reg) {
    r.off % 4 + Width(r.off) <= 4 && r.off + Width(r.off) <= 0x1000
  }

  lemma PlannedInWindow(r: Reg)
    requires Planned(r)
    ensures InWindow(r)
  {
  }

  function Value(mem: seq<Byte>, at: Layout, r: Reg): nat
    requires at.Address(r) + Width(r.off) <= |mem|
  {
    FromBytes(mem[at.Address(r)..at.Address(r) + Width(r.off)])
  }

  ghost predicate Holds(mem: seq<Byte>, at: Layout, r: Reg, v: nat) {
    at.Address(r) + Width(r.off) <= |mem| && Value(mem, at, r) == v
  }

  /** The byte at address `a` belongs to register `r`. */
  predicate Covers(at: Layout, r: Reg, a: nat) {
    at.Address(r) <= a < at.Address(r) + Width(r.off)
  }

  /** Two planned registers share no byte. */
  lemma PlannedAreDisjoint(at: Layout, size: nat, r: Reg, r': Reg, a: nat)
    requires at.Fits(size) && Planned(r) && Planned(r') && Covers(at, r, a) && Covers(at, r', a)
    ensures r == r'
  {
    PlannedInWindow(r);
    PlannedInWindow(r');
    assert at.Base(r.unit) % 0x1000 == 0 && at.Base(r'.unit) % 0x1000 == 0;
    assert a / 0x1000 == at.Base(r.unit) / 0x1000 && a / 0x1000 == at.Base(r'.unit) / 0x1000;
  }

  // ---------------------------------------------------------------- the trace and what it does to memory

  /** The accesses of the code; `Fetch` is the read of the dword inside the store of a narrower field. */
  datatype Access = Put(reg: Reg, value: nat) | Got(reg: Reg, value: nat) | Fetch(reg: Reg, dword: Dword)

  predicate Narrow(r: Reg) {
    Width(r.off) < 4
  }

  /** The accesses of a store of `v`, whose inner read returns `seen`. */
  function Storing(r: Reg, v: nat, seen: Dword): seq<Access> {
    (if Narrow(r) then [Fetch(r, seen)] else []) + [Put(r, v)]
  }

  /** What the read just before the access at `k` returned. */
  function Fetched(log: seq<Access>, k: nat): Dword
    requires k < |log|
  {
    if k > 0 && log[k - 1].Fetch? then log[k - 1].dword else [0, 0, 0, 0]
  }

  /** Every write of the trace goes to a planned register. */
  ghost predicate Writable(log: seq<Access>) {
    forall i :: 0 <= i < |log| && log[i].Put? ==> Planned(log[i].reg)
  }

  /** Where the register can be stored: in its window, inside one aligned dword of the memory. */
  ghost predicate Storable(mem: seq<Byte>, at: Layout, r: Reg) {
    && Planned(r) && at.Address(r) % 4 == r.off % 4 && r.off % 4 + Width(r.off) <= 4
    && at.Address(r) - at.Address(r) % 4 + 4 <= |mem|
  }

  lemma PlannedIsStorable(mem: seq<Byte>, at: Layout, r: Reg)
    requires at.Fits(|mem|) && Planned(r)
    ensures Storable(mem, at, r)
  {
    Aligned(at, |mem|, r);
    PlannedInWindow(r);
    assert r.off - r.off % 4 + 4 <= 0x1000;
  }

  function Store(mem: seq<Byte>, at: Layout, r: Reg, v: nat, seen: Dword): (mem': seq<Byte>)
    requires Storable(mem, at, r)
    ensures |mem'| == |mem|
  {
    PreserveStore(mem, at.Address(r), ToBytes(v, Width(r.off)), seen)
  }

  lemma Aligned(at: Layout, size: nat, r: Reg)
    requires at.Fits(size)
    ensures at.Address(r) % 4 == r.off % 4
  {
    assert at.Base(r.unit) % 0x1000 == 0;
    assert at.Base(r.unit) == 4 * (at.Base(r.unit) / 0x1000 * 0x400);
  }

  /** The memory after the writes of the trace, on hardware that accepts them. */
  ghost function Replay(mem: seq<Byte>, at: Layout, log: seq<Access>): (mem': seq<Byte>)
    requires at.Fits(|mem|) && Writable(log)
    ensures |mem'| == |mem|
  {
    if log == [] then mem
    else
      var k := |log| - 1;
      var m := Replay(mem, at, log[..k]);
      if log[k].Put? then
        PlannedIsStorable(m, at, log[k].reg);
        Store(m, at, log[k].reg, log[k].value, Fetched(log, k))
      else m
  }

  /** The inner reads of the stores have told what the memory held. */
  ghost predicate Truthful(mem: seq<Byte>, at: Layout, log: seq<Access>)
    requires at.Fits(|mem|) && Writable(log)
  {
    if log == [] then true
    else
      var k := |log| - 1;
      && Truthful(mem, at, log[..k])
      && (log[k].Put? && Narrow(log[k].reg) ==>
            var m := Replay(mem, at, log[..k]);
            PlannedIsStorable(m, at, log[k].reg);
            Fetched(log, k) == DwordOf(m, at.Address(log[k].reg)))
  }

  /** One more store. */
  lemma ReplayStoring(mem: seq<Byte>, at: Layout, log: seq<Access>, r: Reg, v: nat, seen: Dword)
    requires at.Fits(|mem|) && Writable(log) && Planned(r)
    ensures var log' := log + Storing(r, v, seen);
            var m := Replay(mem, at, log);
            && Writable(log') && Storable(m, at, r) && Replay(mem, at, log') == Store(m, at, r, v, seen)
            && (Truthful(mem, at, log) && (Narrow(r) ==> seen == DwordOf(m, at.Address(r))) ==>
                  Truthful(mem, at, log'))
  {
    var m := Replay(mem, at, log);
    PlannedIsStorable(m, at, r);
    var log1 := if Narrow(r) then log + [Fetch(r, seen)] else log;
    var log' := log1 + [Put(r, v)];
    assert log' == log + Storing(r, v, seen);
    assert log'[..|log1|] == log1;
    if Narrow(r) { assert log1[..|log|] == log; }
    WideStore(m, at, r, v, seen, Fetched(log', |log1|));
    hide Store;
    assert Replay(mem, at, log1) == m;
  }

  /**
    The hardware: whether it stores all that is written, and otherwise which writes; whether it
    reads truthfully, and otherwise what reads return, each depending on all accesses before.
   */
  datatype Hardware = Hardware(accepts: bool, stores: seq<Access> -> bool,
                               honest: bool, answers: (seq<Access>, Reg) -> nat, fetches: (seq<Access>, Reg) -> Dword)

  /** The memory after the accesses of the trace. */
  ghost function Memory(mem: seq<Byte>, at: Layout, log: seq<Access>, hw: Hardware): (mem': seq<Byte>)
    requires at.Fits(|mem|) && Writable(log)
    ensures |mem'| == |mem|
  {
    if log == [] then mem
    else
      var k := |log| - 1;
      var m := Memory(mem, at, log[..k], hw);
      if log[k].Put? && (hw.accepts || hw.stores(log[..k])) then
        PlannedIsStorable(m, at, log[k].reg);
        Store(m, at, log[k].reg, log[k].value, Fetched(log, k))
      else m
  }

  /** What a read of the register returns after the accesses of the trace. */
  function Answer(mem: seq<Byte>, at: Layout, log: seq<Access>, r: Reg, hw: Hardware): nat
    requires at.Address(r) + Width(r.off) <= |mem|
  {
    if hw.honest then Value(mem, at, r) else hw.answers(log, r) % Pow256(Width(r.off))
  }

  function FetchAnswer(mem: seq<Byte>, at: Layout, log: seq<Access>, r: Reg, hw: Hardware): Dword
    requires at.Address(r) - at.Address(r) % 4 + 4 <= |mem|
  {
    if hw.honest then DwordOf(mem, at.Address(r)) else hw.fetches(log, r)
  }

  /** Every read of the trace returned what the hardware answers there. */
  ghost predicate Answered(mem: seq<Byte>, at: Layout, log: seq<Access>, hw: Hardware)
    requires at.Fits(|mem|) && Writable(log)
  {
    if log == [] then true
    else
      var k := |log| - 1;
      var m, r := Memory(mem, at, log[..k], hw), log[k].reg;
      && Answered(mem, at, log[..k], hw)
      && (log[k].Got? ==> at.Address(r) + Width(r.off) <= |m| && log[k].value == Answer(m, at, log[..k], r, hw))
      && (log[k].Fetch? ==> Storable(m, at, r) && log[k].dword == FetchAnswer(m, at, log[..k], r, hw))
  }

  lemma AnsweredMore(mem: seq<Byte>, at: Layout, log: seq<Access>, e: Access, hw: Hardware)
    requires at.Fits(|mem|) && Writable(log) && Answered(mem, at, log, hw) && (e.Put? ==> Planned(e.reg))
    requires var m := Memory(mem, at, log, hw);
             && (e.Got? ==> at.Address(e.reg) + Width(e.reg.off) <= |m| && e.value == Answer(m, at, log, e.reg, hw))
             && (e.Fetch? ==> Storable(m, at, e.reg) && e.dword == FetchAnswer(m, at, log, e.reg, hw))
    ensures Writable(log + [e]) && Answered(mem, at, log + [e], hw)
    ensures !e.Put? ==> Memory(mem, at, log + [e], hw) == Memory(mem, at, log, hw)
  {
    assert (log + [e])[..|log|] == log;
  }

  /** What a store adds to the trace is answered, and changes the memory if it is stored. */
  lemma MemoryStoring(mem: seq<Byte>, at: Layout, log: seq<Access>, r: Reg, v: nat, seen: Dword, hw: Hardware)
    requires at.Fits(|mem|) && Writable(log) && Answered(mem, at, log, hw) && Planned(r)
    requires var m := Memory(mem, at, log, hw);
             Narrow(r) ==> Storable(m, at, r) && seen == FetchAnswer(m, at, log, r, hw)
    ensures var log1 := if Narrow(r) then log + [Fetch(r, seen)] else log;
            var log' := log + Storing(r, v, seen);
            var m := Memory(mem, at, log, hw);
            && Writable(log') && Answered(mem, at, log', hw) && Storable(m, at, r)
            && Memory(mem, at, log', hw) == if hw.accepts || hw.stores(log1) then Store(m, at, r, v, seen) else m
  {
    var m := Memory(mem, at, log, hw);
    PlannedIsStorable(m, at, r);
    var log1 := if Narrow(r) then log + [Fetch(r, seen)] else log;
    var log' := log1 + [Put(r, v)];
    assert log' == log + Storing(r, v, seen);
    if Narrow(r) { AnsweredMore(mem, at, log, Fetch(r, seen), hw); }
    AnsweredMore(mem, at, log1, Put(r, v), hw);
    assert log'[..|log1|] == log1;
    WideStore(m, at, r, v, seen, Fetched(log', |log1|));
    hide Store;
  }

  /** The byte at `a` lies in the dword of register `r`. */
  predicate InDword(at: Layout, r: Reg, a: nat) {
    var p := at.Address(r);
    p - p % 4 <= a < p - p % 4 + 4
  }

  /** A store writes the bytes of its register; the others of the dword become what the inner read told. */
  lemma StoreBytes(mem: seq<Byte>, at: Layout, r: Reg, v: nat, seen: Dword, a: nat)
    requires Storable(mem, at, r) && a < |mem|
    ensures Store(mem, at, r, v, seen)[a] ==
            if Covers(at, r, a) then ToBytes(v, Width(r.off))[a - at.Address(r)]
            else if InDword(at, r, a) then seen[a - (at.Address(r) - at.Address(r) % 4)]
            else mem[a]
  {
    PreserveStoreBytes(mem, at.Address(r), ToBytes(v, Width(r.off)), seen, a);
  }

  /** A store of a whole dword does not depend on any inner read. */
  lemma WideStore(mem: seq<Byte>, at: Layout, r: Reg, v: nat, seen: Dword, seen': Dword)
    requires Storable(mem, at, r)
    ensures !Narrow(r) ==> Store(mem, at, r, v, seen) == Store(mem, at, r, v, seen')
  {
    if !Narrow(r) {
      PreserveStoreIsSplice(mem, at.Address(r), ToBytes(v, Width(r.off)), seen);
      PreserveStoreIsSplice(mem, at.Address(r), ToBytes(v, Width(r.off)), seen');
    }
  }

  /** A store whose inner read tells the truth writes the bytes of its register and no other byte. */
  lemma TrueStoreBytes(mem: seq<Byte>, at: Layout, r: Reg, v: nat, seen: Dword, a: nat)
    requires Storable(mem, at, r) && a < |mem|
    requires Narrow(r) ==> seen == DwordOf(mem, at.Address(r))
    ensures Store(mem, at, r, v, seen)[a] ==
            if Covers(at, r, a) then ToBytes(v, Width(r.off))[a - at.Address(r)] else mem[a]
  {
    PreserveStoreIsSplice(mem, at.Address(r), ToBytes(v, Width(r.off)), seen);
  }

  ghost predicate Touched(log: seq<Access>, at: Layout, a: nat) {
    exists i :: 0 <= i < |log| && log[i].Put? && Covers(at, log[i].reg, a)
  }

  lemma {:induction false} UntouchedBytes(mem: seq<Byte>, at: Layout, log: seq<Access>, a: nat)
    requires at.Fits(|mem|) && Writable(log) && Truthful(mem, at, log) && a < |mem| && !Touched(log, at, a)
    ensures Replay(mem, at, log)[a] == mem[a]
  {
    if log != [] {
      var k := |log| - 1;
      UntouchedBytes(mem, at, log[..k], a);
      if log[k].Put? {
        var m := Replay(mem, at, log[..k]);
        PlannedIsStorable(m, at, log[k].reg);
        TrueStoreBytes(m, at, log[k].reg, log[k].value, Fetched(log, k), a);
      }
    }
  }

  /** Every write of the trace writes the planned value. */
  ghost predicate FollowsPlan(log: seq<Access>, saved: Names) {
    forall i :: 0 <= i < |log| && log[i].Put? ==> Planned(log[i].reg) && log[i].value == Plan(saved, log[i].reg)
  }

  /** A register that the trace writes ends up with the bytes of its planned value. */
  lemma {:induction false} TouchedBytes(mem: seq<Byte>, at: Layout, log: seq<Access>, saved: Names, r: Reg, a: nat)
    requires at.Fits(|mem|) && FollowsPlan(log, saved) && Planned(r) && a < |mem| && Covers(at, r, a)
    requires Truthful(mem, at, log)
    requires Put(r, Plan(saved, r)) in log
    ensures Replay(mem, at, log)[a] == ToBytes(Plan(saved, r), Width(r.off))[a - at.Address(r)]
  {
    var k := |log| - 1;
    var m := Replay(mem, at, log[..k]);
    if log[k].Put? {
      PlannedIsStorable(m, at, log[k].reg);
      TrueStoreBytes(m, at, log[k].reg, log[k].value, Fetched(log, k), a);
    }
    if log[k] != Put(r, Plan(saved, r)) {
      if log[k].Put? && Covers(at, log[k].reg, a) { PlannedAreDisjoint(at, |mem|, r, log[k].reg, a); }
      TouchedBytes(mem, at, log[..k], saved, r, a);
    }
  }

  /** The trace writes every planned register. */
  ghost predicate Complete(log: seq<Access>, saved: Names) {
    forall r :: Planned(r) ==> Put(r, Plan(saved, r)) in log
  }

  /** The saved values fit their registers, as values read from them do. */
  ghost predicate Fitting(saved: Names) {
    forall r :: r in saved ==> saved[r] < Pow256(Width(r.off))
  }

  /** No planned register covers the byte at `a`. */
  ghost predicate Outside(at: Layout, a: nat) {
    forall r :: Planned(r) ==> !Covers(at, r, a)
  }

  /** Each planned register reads as planned. */
  ghost predicate Restored(mem: seq<Byte>, at: Layout, saved: Names) {
    forall r :: Planned(r) ==> InWindow(r) && Holds(mem, at, r, Plan(saved, r))
  }

  /**
    A trace of planned writes, over any memory, whose inner reads told the truth: if it is
    complete, each planned register then reads as planned; and each byte outside those registers
    is as it was.
   */
  lemma PlanOutcome(mem: seq<Byte>, at: Layout, log: seq<Access>, saved: Names)
    requires at.Fits(|mem|) && FollowsPlan(log, saved) && Fitting(saved) && Truthful(mem, at, log)
    ensures Complete(log, saved) ==> Restored(Replay(mem, at, log), at, saved)
    ensures forall a :: 0 <= a < |mem| && Outside(at, a) ==> Replay(mem, at, log)[a] == mem[a]
  {
    if Complete(log, saved) {
      forall r | Planned(r)
        ensures InWindow(r) && Holds(Replay(mem, at, log), at, r, Plan(saved, r))
      {
        RegisterRestored(mem, at, log, saved, r);
      }
    }
    forall a | 0 <= a < |mem| && Outside(at, a)
      ensures Replay(mem, at, log)[a] == mem[a]
    {
      UntouchedBytes(mem, at, log, a);
    }
  }

  lemma RegisterRestored(mem: seq<Byte>, at: Layout, log: seq<Access>, saved: Names, r: Reg)
    requires at.Fits(|mem|) && FollowsPlan(log, saved) && Fitting(saved) && Truthful(mem, at, log)
    requires Planned(r) && Put(r, Plan(saved, r)) in log
    ensures InWindow(r) && Value(Replay(mem, at, log), at, r) == Plan(saved, r)
  {
    PlannedInWindow(r);
    var w, p, mem' := Width(r.off), at.Address(r), Replay(mem, at, log);
    forall a | p <= a < p + w
      ensures mem'[a] == ToBytes(Plan(saved, r), w)[a - p]
    {
      TouchedBytes(mem, at, log, saved, r, a);
    }
    ReadsAsPlanned(mem', at, saved, r);
  }

  /** A register that holds the bytes of its planned value reads as planned. */
  lemma ReadsAsPlanned(mem: seq<Byte>, at: Layout, saved: Names, r: Reg)
    requires Fitting(saved) && Planned(r) && at.Address(r) + Width(r.off) <= |mem|
    requires forall a :: at.Address(r) <= a < at.Address(r) + Width(r.off) ==>
               mem[a] == ToBytes(Plan(saved, r), Width(r.off))[a - at.Address(r)]
    ensures Value(mem, at, r) == Plan(saved, r)
  {
    var w, p := Width(r.off), at.Address(r);
    assert mem[p..p + w] == ToBytes(Plan(saved, r), w);
    assert Plan(saved, r) < Pow256(w) by { PowersOfWidth(); }
    FromToBytes(Plan(saved, r), w);
  }

  lemma PowersOfWidth()
    ensures Pow256(1) == 0x100 && Pow256(2) == 0x1_0000 && Pow256(4) == 0x1_0000_0000
  {
    assert Pow256(2) == 256 * Pow256(1) && Pow256(3) == 256 * Pow256(2) && Pow256(4) == 256 * Pow256(3);
  }

  // ---------------------------------------------------------------- whatever the inner reads told

  /** The registers share a dword. */
  predicate SameDword(r: Reg, r': Reg) {
    r.unit == r'.unit && r.off / 4 == r'.off / 4
  }

  /** A byte lies in one dword only. */
  lemma DwordsAreDisjoint(at: Layout, size: nat, r: Reg, r': Reg, a: nat)
    requires at.Fits(size) && r.off < 0x1000 && r'.off < 0x1000 && InDword(at, r, a) && InDword(at, r', a)
    ensures SameDword(r, r')
  {
    DwordInWindow(at, size, r, a);
    DwordInWindow(at, size, r', a);
  }

  lemma DwordInWindow(at: Layout, size: nat, r: Reg, a: nat)
    requires at.Fits(size) && r.off < 0x1000 && InDword(at, r, a)
    ensures a / 0x1000 == at.Base(r.unit) / 0x1000 && at.Base(r.unit) % 0x1000 == 0
    ensures (a - at.Base(r.unit)) / 4 == r.off / 4
  {
    Aligned(at, size, r);
    assert at.Base(r.unit) % 0x1000 == 0;
    assert at.Address(r) - at.Address(r) % 4 == at.Base(r.unit) + 4 * (r.off / 4);
  }

  /** The register of the last store into the dword of `r`. */
  function LastIn(log: seq<Access>, r: Reg): Option<Reg> {
    if log == [] then None
    else
      var k := |log| - 1;
      if log[k].Put? && SameDword(log[k].reg, r) then Some(log[k].reg) else LastIn(log[..k], r)
  }

  /** What the inner read of that store returned. */
  function LastFetched(log: seq<Access>, r: Reg): Dword {
    if log == [] then [0, 0, 0, 0]
    else
      var k := |log| - 1;
      if log[k].Put? && SameDword(log[k].reg, r) then Fetched(log, k) else LastFetched(log[..k], r)
  }

  /** The last store into a dword decides all of it: the field as planned, the rest as its inner read told. */
  lemma {:induction false} DwordOutcome(mem: seq<Byte>, at: Layout, log: seq<Access>, saved: Names, r: Reg, a: nat)
    requires at.Fits(|mem|) && FollowsPlan(log, saved) && Planned(r) && InDword(at, r, a) && a < |mem|
    ensures var last, byte := LastIn(log, r), Replay(mem, at, log)[a];
            if last.None? then byte == mem[a]
            else if Covers(at, last.value, a) then
              byte == ToBytes(Plan(saved, last.value), Width(last.value.off))[a - at.Address(last.value)]
            else byte == LastFetched(log, r)[a - (at.Address(r) - at.Address(r) % 4)]
  {
    if log != [] {
      var k := |log| - 1;
      DwordOutcome(mem, at, log[..k], saved, r, a);
      if log[k].Put? {
        var m := Replay(mem, at, log[..k]);
        PlannedIsStorable(m, at, log[k].reg);
        StoreBytes(m, at, log[k].reg, log[k].value, Fetched(log, k), a);
        SameDwordSameBytes(at, |mem|, log[k].reg, r, a);
      }
    }
  }

  lemma SameDwordSameBytes(at: Layout, size: nat, r: Reg, r': Reg, a: nat)
    requires at.Fits(size) && Planned(r) && Planned(r') && InDword(at, r', a)
    ensures SameDword(r, r') <==> InDword(at, r, a)
    ensures SameDword(r, r') ==> at.Address(r) - at.Address(r) % 4 == at.Address(r') - at.Address(r') % 4
    ensures Covers(at, r, a) ==> InDword(at, r, a)
  {
    PlannedInWindow(r);
    PlannedInWindow(r');
    Aligned(at, size, r);
    Aligned(at, size, r');
    if InDword(at, r, a) { DwordsAreDisjoint(at, size, r, r', a); }
  }

  /** The byte at `a` lies in no dword that contains a planned register. */
  ghost predicate OutsideDwords(at: Layout, a: nat) {
    forall r :: Planned(r) ==> !InDword(at, r, a)
  }

  lemma {:induction false} OutsideUnchanged(mem: seq<Byte>, at: Layout, log: seq<Access>, a: nat)
    requires at.Fits(|mem|) && Writable(log) && a < |mem| && OutsideDwords(at, a)
    ensures Replay(mem, at, log)[a] == mem[a]
  {
    if log != [] {
      var k := |log| - 1;
      OutsideUnchanged(mem, at, log[..k], a);
      if log[k].Put? {
        var m := Replay(mem, at, log[..k]);
        PlannedIsStorable(m, at, log[k].reg);
        StoreBytes(m, at, log[k].reg, log[k].value, Fetched(log, k), a);
        CoveredInDword(at, |mem|, log[k].reg, a);
      }
    }
  }

  lemma CoveredInDword(at: Layout, size: nat, r: Reg, a: nat)
    requires at.Fits(size) && Planned(r)
    ensures Covers(at, r, a) ==> InDword(at, r, a)
  {
    PlannedInWindow(r);
    Aligned(at, size, r);
  }

  predicate IsBridge(u: Unit) {
    u in {UPSB, DSB0, DSB1, DSB2}
  }

  /** The bus numbers before the subordinate one: the only planned registers that others follow in their dword. */
  predicate Followed(r: Reg) {
    r.off in {PRIMARY, SECONDARY}
  }

  /** The subordinate bus numbers are stored last in their dwords. */
  ghost predicate Tidy(log: seq<Access>) {
    forall u :: LastIn(log, Reg(u, SUBORDINATE)) in {None, Some(Reg(u, SUBORDINATE))}
  }

  /** Every planned register but the first two bus numbers is the last in its dword that is stored. */
  lemma {:induction false} LastIsItself(log: seq<Access>, saved: Names, r: Reg)
    requires FollowsPlan(log, saved) && Planned(r) && r.off !in {PRIMARY, SECONDARY, SUBORDINATE}
    ensures LastIn(log, r) == if Put(r, Plan(saved, r)) in log then Some(r) else None
  {
    if log != [] {
      var k := |log| - 1;
      LastIsItself(log[..k], saved, r);
      if log[k].Put? && SameDword(log[k].reg, r) { AloneInDword(r, log[k].reg); }
    }
  }

  lemma AloneInDword(r: Reg, r': Reg)
    requires Planned(r) && Planned(r') && SameDword(r, r') && r.off !in {PRIMARY, SECONDARY, SUBORDINATE}
    ensures r' == r
  {
    assert r == Reg(r.unit, r.off) && r' == Reg(r'.unit, r'.off);
  }

  lemma {:induction false} StoredIsLast(log: seq<Access>, r: Reg, v: nat)
    requires Put(r, v) in log
    ensures LastIn(log, r).Some?
  {
    var k := |log| - 1;
    if !(log[k].Put? && SameDword(log[k].reg, r)) { StoredIsLast(log[..k], r, v); }
  }

  /** Each planned register but the first two bus numbers reads as planned. */
  ghost predicate MostlyRestored(mem: seq<Byte>, at: Layout, saved: Names) {
    forall r :: Planned(r) && !Followed(r) ==> InWindow(r) && Holds(mem, at, r, Plan(saved, r))
  }

  /** The first two bus numbers of each bridge read as the last inner read of their dword told. */
  ghost predicate BusNumbersTold(mem: seq<Byte>, at: Layout, log: seq<Access>) {
    forall u :: IsBridge(u) ==>
      var seen := LastFetched(log, Reg(u, SUBORDINATE));
      Holds(mem, at, Reg(u, PRIMARY), seen[0]) && Holds(mem, at, Reg(u, SECONDARY), seen[1])
  }

  /**
    A trace of planned writes on hardware that accepts them, whatever its inner reads told: if it
    is complete and tidy, each planned register reads as planned, but for the first two bus
    numbers of a bridge, which read as the inner read of the last store after them told. No byte
    outside the dwords of planned registers changes.
   */
  lemma LyingOutcome(mem: seq<Byte>, at: Layout, log: seq<Access>, saved: Names)
    requires at.Fits(|mem|) && FollowsPlan(log, saved) && Fitting(saved)
    ensures Complete(log, saved) && Tidy(log) ==> MostlyRestored(Replay(mem, at, log), at, saved)
    ensures Complete(log, saved) && Tidy(log) ==> BusNumbersTold(Replay(mem, at, log), at, log)
    ensures forall a :: 0 <= a < |mem| && OutsideDwords(at, a) ==> Replay(mem, at, log)[a] == mem[a]
  {
    var mem' := Replay(mem, at, log);
    if Complete(log, saved) && Tidy(log) {
      forall r | Planned(r) && !Followed(r)
        ensures InWindow(r) && Holds(mem', at, r, Plan(saved, r))
      {
        MostRegistersRestored(mem, at, log, saved, r);
      }
      forall u | IsBridge(u)
        ensures var seen := LastFetched(log, Reg(u, SUBORDINATE));
                Holds(mem', at, Reg(u, PRIMARY), seen[0]) && Holds(mem', at, Reg(u, SECONDARY), seen[1])
      {
        BusNumbersAreTold(mem, at, log, saved, u);
      }
    }
    forall a | 0 <= a < |mem| && OutsideDwords(at, a)
      ensures mem'[a] == mem[a]
    {
      OutsideUnchanged(mem, at, log, a);
    }
  }

  /** The inner read of the last store into each bridge's bus numbers told the planned ones. */
  ghost predicate PlannedTold(log: seq<Access>, saved: Names) {
    forall u :: IsBridge(u) ==>
      var seen := LastFetched(log, Reg(u, SUBORDINATE));
      seen[0] == Plan(saved, Reg(u, PRIMARY)) && seen[1] == Plan(saved, Reg(u, SECONDARY))
  }

  /** After a complete, tidy and accepted trace everything is restored exactly when those reads told so. */
  lemma RestoredIff(mem: seq<Byte>, at: Layout, log: seq<Access>, saved: Names)
    requires MostlyRestored(mem, at, saved) && BusNumbersTold(mem, at, log)
    ensures Restored(mem, at, saved) <==> PlannedTold(log, saved)
  {
    hide Plan, LastFetched, FromBytes;
    if PlannedTold(log, saved) {
      forall r | Planned(r)
        ensures InWindow(r) && Holds(mem, at, r, Plan(saved, r))
      {
        PlannedInWindow(r);
        assert r == Reg(r.unit, r.off);
      }
    }
    if Restored(mem, at, saved) {
      forall u | IsBridge(u)
        ensures var seen := LastFetched(log, Reg(u, SUBORDINATE));
                seen[0] == Plan(saved, Reg(u, PRIMARY)) && seen[1] == Plan(saved, Reg(u, SECONDARY))
      {
        assert Planned(Reg(u, PRIMARY)) && Planned(Reg(u, SECONDARY));
      }
    }
  }

  lemma MostRegistersRestored(mem: seq<Byte>, at: Layout, log: seq<Access>, saved: Names, r: Reg)
    requires at.Fits(|mem|) && FollowsPlan(log, saved) && Fitting(saved) && Tidy(log)
    requires Planned(r) && !Followed(r) && Put(r, Plan(saved, r)) in log
    ensures InWindow(r) && Holds(Replay(mem, at, log), at, r, Plan(saved, r))
  {
    PlannedInWindow(r);
    PlannedIsStorable(mem, at, r);
    if r.off == SUBORDINATE {
      StoredIsLast(log, r, Plan(saved, r));
      assert r == Reg(r.unit, SUBORDINATE);
    } else {
      LastIsItself(log, saved, r);
    }
    forall a | at.Address(r) <= a < at.Address(r) + Width(r.off)
      ensures Replay(mem, at, log)[a] == ToBytes(Plan(saved, r), Width(r.off))[a - at.Address(r)]
    {
      CoveredInDword(at, |mem|, r, a);
      DwordOutcome(mem, at, log, saved, r, a);
    }
    ReadsAsPlanned(Replay(mem, at, log), at, saved, r);
  }

  lemma BusNumbersAreTold(mem: seq<Byte>, at: Layout, log: seq<Access>, saved: Names, u: Unit)
    requires at.Fits(|mem|) && FollowsPlan(log, saved) && Complete(log, saved) && Tidy(log) && IsBridge(u)
    ensures var mem', seen := Replay(mem, at, log), LastFetched(log, Reg(u, SUBORDINATE));
            Holds(mem', at, Reg(u, PRIMARY), seen[0]) && Holds(mem', at, Reg(u, SECONDARY), seen[1])
  {
    var r, p := Reg(u, SUBORDINATE), at.Base(u) + PRIMARY;
    StoredIsLast(log, r, Plan(saved, r));
    PlannedIsStorable(mem, at, r);
    Aligned(at, |mem|, r);
    var mem' := Replay(mem, at, log);
    assert p == at.Address(r) - at.Address(r) % 4 && p + 4 <= |mem| && Planned(r);
    assert !Covers(at, r, p) && !Covers(at, r, p + 1) && InDword(at, r, p) && InDword(at, r, p + 1);
    hide Replay, LastIn, LastFetched, FollowsPlan, Complete, Plan, FromBytes, ToBytes, Storable;
    assert LastIn(log, r) == Some(r);
    DwordOutcome(mem, at, log, saved, r, p);
    DwordOutcome(mem, at, log, saved, r, p + 1);
    OneByte(mem', p);
    OneByte(mem', p + 1);
  }

  lemma OneByte(mem: seq<Byte>, a: nat)
    requires a < |mem|
    ensures FromBytes(mem[a..a + 1]) == mem[a]
  {
    assert mem[a..a + 1] == [mem[a]] && [mem[a]][1..] == [];
  }

  /** The planned writes leave every byte of a status register alone, whatever their inner reads told. */
  lemma StatusUntouched(mem: seq<Byte>, at: Layout, log: seq<Access>, r: Reg)
    requires at.Fits(|mem|) && Writable(log) && r in {RPLT, UPLT, DPLT, UPVD}
    ensures InWindow(r) && Value(Replay(mem, at, log), at, r) == Value(mem, at, r)
  {
    var w, p, mem' := Width(r.off), at.Address(r), Replay(mem, at, log);
    assert InWindow(r) && p + w <= |mem| by { assert at.Base(r.unit) + 0x1000 <= |mem|; }
    hide Replay, FromBytes, Planned, OutsideDwords, Width, InWindow, Writable;
    forall a | p <= a < p + w
      ensures mem'[a] == mem[a]
    {
      StatusOutsideDwords(at, |mem|, r, a);
      OutsideUnchanged(mem, at, log, a);
    }
    assert mem'[p..p + w] == mem[p..p + w];
  }

  lemma StatusOutsideDwords(at: Layout, size: nat, status: Reg, a: nat)
    requires at.Fits(size) && status in {RPLT, UPLT, DPLT, UPVD} && Covers(at, status, a)
    ensures OutsideDwords(at, a)
  {
    Aligned(at, size, status);
    forall r | Planned(r)
      ensures !InDword(at, r, a)
    {
      PlannedInWindow(r);
      if InDword(at, r, a) {
        DwordsAreDisjoint(at, size, r, status, a);
        NoStatusInPlan(r, status);
      }
    }
  }

  lemma NoStatusInPlan(r: Reg, status: Reg)
    requires Planned(r) && status in {RPLT, UPLT, DPLT, UPVD}
    ensures !SameDword(r, status)
  {
  }

  // ---------------------------------------------------------------- staging

  /** Between positions `lo` and `hi` the trace writes registers of `units` only. */
  ghost predicate WritesOnly(log: seq<Access>, lo: nat, hi: nat, units: set<Unit>) {
    forall i :: lo <= i < hi && i < |log| && log[i].Put? ==> log[i].reg.unit in units
  }

  /** All registers of `units` have been written as planned. */
  ghost predicate Wrote(log: seq<Access>, saved: Names, units: set<Unit>) {
    forall r :: Planned(r) && r.unit in units ==> Put(r, Plan(saved, r)) in log
  }

  lemma BridgePlan(u: Unit)
    requires u in {UPSB, DSB0, DSB1, DSB2}
    ensures Planned(Reg(u, COMMAND)) && (u == DSB2 ==> Planned(Reg(u, VES)))
  {
  }

  lemma BridgeWrote(log: seq<Access>, saved: Names, u: Unit)
    requires u in {UPSB, DSB0, DSB1, DSB2}
    requires forall r :: r in BusRegs(u) + WindowRegs(u) + {Reg(u, LIMIT_UPPER)} ==> Put(r, Plan(saved, r)) in log
    requires Put(Reg(u, COMMAND), Plan(saved, Reg(u, COMMAND))) in log
    requires u == DSB2 ==> Put(Reg(u, VES), Plan(saved, Reg(u, VES))) in log
    ensures Wrote(log, saved, {u})
  {
    hide Plan;
    forall r | Planned(r) && r.unit == u
      ensures Put(r, Plan(saved, r)) in log
    {
      assert r == Reg(u, r.off);
    }
  }

  lemma WroteAll(log: seq<Access>, saved: Names)
    requires Wrote(log, saved, {RP, UPSB, DSB0, DSB1, DSB2, NHI})
    ensures Complete(log, saved)
  {
    forall r | Planned(r)
      ensures Put(r, Plan(saved, r)) in log
    {
      match r.unit { case _ => }
    }
  }

  /** A link status word with bit 11, link training, clear. */
  predicate Trained(e: Access, r: Reg) {
    e.Got? && e.reg == r && e.value / 0x800 % 2 == 0
  }

  /** The check that precedes a link test: the root port's command register reads 7. */
  predicate CommandSeen(e: Access) {
    e == Got(RPR4, 7)
  }

  /** An upstream port of vendor 0x8086 answers. */
  predicate IntelSeen(e: Access) {
    e.Got? && e.reg == UPVD && e.value % 0x1_0000 == 0x8086
  }

  /** The trace ends with the reads that make WTLT succeed. */
  predicate UpLinkSeen(log: seq<Access>) {
    var n := |log|;
    n >= 4 && CommandSeen(log[n - 4]) && Trained(log[n - 3], RPLT) && Trained(log[n - 2], UPLT) && IntelSeen(log[n - 1])
  }

  /** The trace ends with the reads that make WTDL succeed. */
  predicate DownLinkSeen(log: seq<Access>) {
    var n := |log|;
    n >= 5 && CommandSeen(log[n - 5]) && Trained(log[n - 4], RPLT) && Trained(log[n - 3], UPLT)
    && Trained(log[n - 2], DPLT) && IntelSeen(log[n - 1])
  }

  /** The trace ends with `r` reading back its planned value. */
  predicate ReadBack(log: seq<Access>, saved: Names, r: Reg) {
    |log| > 0 && log[|log| - 1] == Got(r, Saved(saved, r))
  }

  function StageUnits(k: nat): set<Unit> {
    match k
    case 0 => {RP}
    case 1 => {UPSB}
    case 3 => {DSB0, DSB1, DSB2}
    case 5 => {NHI}
    case _ => {}
  }

  /** What the trace must end with for stage `k` to be passed. */
  predicate GatePassed(log: seq<Access>, saved: Names, k: nat) {
    match k
    case 0 => ReadBack(log, saved, R_20)
    case 1 => ReadBack(log, saved, UP19)
    case 2 => UpLinkSeen(log)
    case 3 => ReadBack(log, saved, DP19)
    case 4 => DownLinkSeen(log)
    case _ => ReadBack(log, saved, NH10)
  }

  /** The trace has passed the stages before `k` and, since then, written registers of stage `k` only. */
  ghost predicate Entered(log: seq<Access>, saved: Names, k: nat)
    decreases k, 1
  {
    exists p :: 0 <= p <= |log| && PassedBefore(log[..p], saved, k) && WritesOnly(log, p, |log|, StageUnits(k))
  }

  ghost predicate PassedBefore(log: seq<Access>, saved: Names, k: nat)
    decreases k, 0
  {
    if k == 0 then log == [] else Passed(log, saved, k - 1)
  }

  /** The trace has just passed stage `k`. */
  ghost predicate Passed(log: seq<Access>, saved: Names, k: nat)
    decreases k, 2
  {
    Entered(log, saved, k) && GatePassed(log, saved, k)
  }

  lemma StageBegins(log: seq<Access>, saved: Names, k: nat)
    requires PassedBefore(log, saved, k)
    ensures Entered(log, saved, k)
  {
    assert log[..|log|] == log;
  }

  lemma StageContinues(log: seq<Access>, log': seq<Access>, saved: Names, k: nat)
    requires Entered(log, saved, k) && log <= log' && WritesOnly(log', |log|, |log'|, StageUnits(k))
    ensures Entered(log', saved, k)
  {
    var p :| 0 <= p <= |log| && PassedBefore(log[..p], saved, k) && WritesOnly(log, p, |log|, StageUnits(k));
    assert log'[..p] == log[..p];
  }

  /** Where stage `k` began: right after the stage before it was passed. */
  lemma StageStart(log: seq<Access>, saved: Names, k: nat) returns (p: nat)
    requires Entered(log, saved, k)
    ensures p <= |log| && PassedBefore(log[..p], saved, k) && WritesOnly(log, p, |log|, StageUnits(k))
    ensures if k == 0 then p == 0 else Passed(log[..p], saved, k - 1) && Entered(log[..p], saved, k - 1)
  {
    p :| 0 <= p <= |log| && PassedBefore(log[..p], saved, k) && WritesOnly(log, p, |log|, StageUnits(k));
  }

  /** A trace inside stage `k` has, for every earlier stage, a prefix that passed it. */
  lemma {:induction false} EarlierStagesPassed(log: seq<Access>, saved: Names, k: nat, j: nat) returns (q: nat)
    requires j < k && Entered(log, saved, k)
    ensures q <= |log| && Passed(log[..q], saved, j)
    decreases k
  {
    hide Entered, Passed, StageUnits;
    var p := StageStart(log, saved, k);
    if j == k - 1 {
      q := p;
    } else {
      q := EarlierStagesPassed(log[..p], saved, k - 1, j);
      assert log[..p][..q] == log[..q];
    }
  }

  lemma StageOfUnit(j: nat, k: nat, u: Unit)
    requires u in StageUnits(j) && u in StageUnits(k)
    ensures j == k
  {
  }

  /** A write of a unit that belongs to stage `j` comes after a prefix that has passed everything before `j`. */
  lemma {:induction false} WritesFollowGates(log: seq<Access>, saved: Names, k: nat, j: nat, i: nat) returns (q: nat)
    requires k < 6 && j < 6 && Entered(log, saved, k)
    requires i < |log| && log[i].Put? && log[i].reg.unit in StageUnits(j)
    ensures q <= i && PassedBefore(log[..q], saved, j)
    decreases k
  {
    hide Entered, PassedBefore, StageUnits;
    var p := StageStart(log, saved, k);
    if p <= i {
      StageOfUnit(j, k, log[i].reg.unit);
      q := p;
    } else {
      q := WritesFollowGates(log[..p], saved, k - 1, j, i);
      assert log[..p][..q] == log[..q];
    }
  }

  lemma StoringIsWrite(log: seq<Access>, saved: Names, r: Reg, seen: Dword)
    requires FollowsPlan(log, saved) && Planned(r)
    ensures var log' := log + Storing(r, Plan(saved, r), seen);
            && log <= log' && |log'| == |log| + Cost(r) && FollowsPlan(log', saved) && Put(r, Plan(saved, r)) in log'
            && WritesOnly(log', |log|, |log'|, {r.unit})
  {
    var log' := log + Storing(r, Plan(saved, r), seen);
    assert log'[|log'| - 1] == Put(r, Plan(saved, r));
  }

  // Tidiness, one access after the other.

  lemma LastInMore(log: seq<Access>, e: Access, r: Reg)
    ensures LastIn(log + [e], r) == if e.Put? && SameDword(e.reg, r) then Some(e.reg) else LastIn(log, r)
  {
    assert (log + [e])[..|log|] == log;
  }

  lemma LastInStoring(log: seq<Access>, r: Reg, v: nat, seen: Dword, r': Reg)
    ensures LastIn(log + Storing(r, v, seen), r') == if SameDword(r, r') then Some(r) else LastIn(log, r')
  {
    hide LastIn;
    if Narrow(r) {
      LastInMore(log, Fetch(r, seen), r');
      LastInMore(log + [Fetch(r, seen)], Put(r, v), r');
      assert log + Storing(r, v, seen) == log + [Fetch(r, seen)] + [Put(r, v)];
    } else {
      LastInMore(log, Put(r, v), r');
      assert Storing(r, v, seen) == [Put(r, v)];
    }
  }

  lemma GotIsTidy(log: seq<Access>, r: Reg, v: nat)
    requires Tidy(log)
    ensures Tidy(log + [Got(r, v)])
  {
    forall u
      ensures LastIn(log + [Got(r, v)], Reg(u, SUBORDINATE)) in {None, Some(Reg(u, SUBORDINATE))}
    {
      LastInMore(log, Got(r, v), Reg(u, SUBORDINATE));
    }
  }

  lemma StoringIsTidy(log: seq<Access>, saved: Names, r: Reg, seen: Dword)
    requires Tidy(log) && Planned(r) && r.off !in {PRIMARY, SECONDARY, SUBORDINATE}
    ensures Tidy(log + Storing(r, Plan(saved, r), seen))
  {
    hide LastIn, Storing, Plan;
    forall u
      ensures LastIn(log + Storing(r, Plan(saved, r), seen), Reg(u, SUBORDINATE)) in {None, Some(Reg(u, SUBORDINATE))}
    {
      LastInStoring(log, r, Plan(saved, r), seen, Reg(u, SUBORDINATE));
    }
  }

  /** The trace with the stores of the three bus numbers of a bridge added. */
  ghost function BusNumbersLog(log: seq<Access>, saved: Names, u: Unit, seen: Dword, seen1: Dword, seen2: Dword)
    : seq<Access>
  {
    log + Storing(Reg(u, PRIMARY), Plan(saved, Reg(u, PRIMARY)), seen)
    + Storing(Reg(u, SECONDARY), Plan(saved, Reg(u, SECONDARY)), seen1)
    + Storing(Reg(u, SUBORDINATE), Plan(saved, Reg(u, SUBORDINATE)), seen2)
  }

  lemma BusNumbersAreTidy(log: seq<Access>, saved: Names, u: Unit, seen: Dword, seen1: Dword, seen2: Dword)
    requires Tidy(log) && FollowsPlan(log, saved) && IsBridge(u)
    ensures var log' := BusNumbersLog(log, saved, u, seen, seen1, seen2);
            && log <= log' && |log'| == |log| + 6 && FollowsPlan(log', saved) && Tidy(log')
            && WritesOnly(log', |log|, |log'|, {u})
            && forall r :: r in BusRegs(u) && r.off != IO ==> Put(r, Plan(saved, r)) in log'
  {
    hide Storing, Plan, LastIn, FollowsPlan;
    var p, q, r := Reg(u, PRIMARY), Reg(u, SECONDARY), Reg(u, SUBORDINATE);
    var log1 := log + Storing(p, Plan(saved, p), seen);
    var log2 := log1 + Storing(q, Plan(saved, q), seen1);
    var log3 := log2 + Storing(r, Plan(saved, r), seen2);
    StoringIsWrite(log, saved, p, seen);
    StoringIsWrite(log1, saved, q, seen1);
    StoringIsWrite(log2, saved, r, seen2);
    forall x
      ensures LastIn(log3, Reg(x, SUBORDINATE)) in {None, Some(Reg(x, SUBORDINATE))}
    {
      LastInStoring(log, p, Plan(saved, p), seen, Reg(x, SUBORDINATE));
      LastInStoring(log1, q, Plan(saved, q), seen1, Reg(x, SUBORDINATE));
      LastInStoring(log2, r, Plan(saved, r), seen2, Reg(x, SUBORDINATE));
    }
  }

  /** What a status register reads as in a memory. */
  ghost function Status(mem: seq<Byte>, at: Layout, r: Reg): nat {
    if at.Address(r) + Width(r.off) <= |mem| then Value(mem, at, r) else 0
  }

  /** The memory shows trained links and an Intel upstream port. */
  ghost predicate LinksUp(mem: seq<Byte>, at: Layout, down: bool) {
    && Status(mem, at, RPLT) / 0x800 % 2 == 0
    && Status(mem, at, UPLT) / 0x800 % 2 == 0
    && (down ==> Status(mem, at, DPLT) / 0x800 % 2 == 0)
    && Status(mem, at, UPVD) % 0x1_0000 == 0x8086
  }

  /**
    The bus accesses of the six stages at most: 10, 10 and 10 attempts for the bridges and 100 for
    the host interface, each with its read back; 2000 polls of four and 2000 of five reads. The
    store of a field narrower than a dword is two accesses.
   */
  const MAX_ACCESSES: nat := (10 * 7 + 1) + (10 * 15 + 1) + 2000 * 4 + (10 * 44 + 1) + 2000 * 5 + (100 * 5 + 1)

  function Cost(r: Reg): nat {
    if Narrow(r) then 2 else 1
  }

  // ---------------------------------------------------------------- how often the code tries

  /** An access as the code makes it: a store of a register, or a read and what it returned. */
  datatype Touch = Stores(reg: Reg) | Reads(reg: Reg, value: nat)

  /** The accesses of the trace from position `from` on. */
  function Shape(log: seq<Access>, from: nat): seq<Touch> {
    if |log| <= from then []
    else
      var k := |log| - 1;
      Shape(log[..k], from)
      + match log[k] case Put(r, _) => [Stores(r)] case Got(r, v) => [Reads(r, v)] case Fetch(_, _) => []
  }

  lemma ShapeOfGot(log: seq<Access>, from: nat, r: Reg, v: nat)
    requires from <= |log|
    ensures Shape(log + [Got(r, v)], from) == Shape(log, from) + [Reads(r, v)]
  {
    assert (log + [Got(r, v)])[..|log|] == log;
  }

  lemma ShapeOfStoring(log: seq<Access>, from: nat, r: Reg, v: nat, seen: Dword)
    requires from <= |log|
    ensures Shape(log + Storing(r, v, seen), from) == Shape(log, from) + [Stores(r)]
  {
    var log1 := if Narrow(r) then log + [Fetch(r, seen)] else log;
    assert log + Storing(r, v, seen) == log1 + [Put(r, v)];
    assert (log1 + [Put(r, v)])[..|log1|] == log1;
    if Narrow(r) { assert log1[..|log|] == log; }
  }

  lemma GotShapes(log: seq<Access>, r: Reg, v: nat)
    ensures forall from: nat :: from <= |log| ==> Shape(log + [Got(r, v)], from) == Shape(log, from) + [Reads(r, v)]
  {
    forall from: nat | from <= |log|
      ensures Shape(log + [Got(r, v)], from) == Shape(log, from) + [Reads(r, v)]
    {
      ShapeOfGot(log, from, r, v);
    }
  }

  lemma StoringShapes(log: seq<Access>, r: Reg, v: nat, seen: Dword)
    ensures forall from: nat :: from <= |log| ==> Shape(log + Storing(r, v, seen), from) == Shape(log, from) + [Stores(r)]
  {
    forall from: nat | from <= |log|
      ensures Shape(log + Storing(r, v, seen), from) == Shape(log, from) + [Stores(r)]
    {
      ShapeOfStoring(log, from, r, v, seen);
    }
  }

  lemma BusNumbersShapes(log: seq<Access>, saved: Names, u: Unit, seen: Dword, seen1: Dword, seen2: Dword)
    ensures forall from: nat :: from <= |log| ==>
              Shape(BusNumbersLog(log, saved, u, seen, seen1, seen2), from) == Shape(log, from) + BusStores(u)
  {
    hide Shape, Storing, Plan;
    var p, q, r := Reg(u, PRIMARY), Reg(u, SECONDARY), Reg(u, SUBORDINATE);
    var log1 := log + Storing(p, Plan(saved, p), seen);
    var log2 := log1 + Storing(q, Plan(saved, q), seen1);
    var log3 := log2 + Storing(r, Plan(saved, r), seen2);
    forall from: nat | from <= |log|
      ensures Shape(log3, from) == Shape(log, from) + BusStores(u)
    {
      ShapeOfStoring(log, from, p, Plan(saved, p), seen);
      ShapeOfStoring(log1, from, q, Plan(saved, q), seen1);
      ShapeOfStoring(log2, from, r, Plan(saved, r), seen2);
      var s := Shape(log, from);
      assert s + [Stores(p)] + [Stores(q)] + [Stores(r)] == s + BusStores(u);
    }
  }

  // What one attempt stores, in its order; the command register comes last.

  function RootPortStores(): seq<Touch> {
    [Stores(Reg(RP, 0x20)), Stores(Reg(RP, 0x24)), Stores(Reg(RP, 0x28)), Stores(Reg(RP, 0x2C)), Stores(Reg(RP, 0x04))]
  }

  function BusStores(u: Unit): seq<Touch> {
    [Stores(Reg(u, 0x18)), Stores(Reg(u, 0x19)), Stores(Reg(u, 0x1A))]
  }

  function WindowStores(u: Unit): seq<Touch> {
    [Stores(Reg(u, 0x20)), Stores(Reg(u, 0x24)), Stores(Reg(u, 0x28)), Stores(Reg(u, 0x2C))]
  }

  function BridgeStores(u: Unit): seq<Touch> {
    BusStores(u) + [Stores(Reg(u, 0x1C))] + WindowStores(u)
    + (if u == DSB2 then [Stores(Reg(u, 0x564))] else []) + [Stores(Reg(u, 0x04))]
  }

  function DsbStores(): seq<Touch> {
    BridgeStores(DSB0) + BridgeStores(DSB1) + BridgeStores(DSB2)
  }

  function NhiStores(): seq<Touch> {
    [Stores(Reg(NHI, 0x10)), Stores(Reg(NHI, 0x14)), Stores(Reg(NHI, 0x04))]
  }

  /** Attempts that each make the stores `one` and read register `r` back, with the answers `vs`. */
  function Rounds(one: seq<Touch>, r: Reg, vs: seq<nat>): seq<Touch> {
    if vs == [] then [] else Rounds(one, r, vs[..|vs| - 1]) + one + [Reads(r, vs[|vs| - 1])]
  }

  lemma OneMoreRound(one: seq<Touch>, r: Reg, vs: seq<nat>, v: nat)
    ensures Rounds(one, r, vs + [v]) == Rounds(one, r, vs) + one + [Reads(r, v)]
  {
    assert (vs + [v])[..|vs|] == vs;
  }

  /**
    A stage with read back: up to `max` attempts, until the register reads as planned; then the
    register is read once more, and that decides.
   */
  ghost predicate Tried(shape: seq<Touch>, one: seq<Touch>, r: Reg, planned: nat, max: nat, ok: bool) {
    exists vs: seq<nat>, last: nat ::
      && 1 <= |vs| <= max && shape == Rounds(one, r, vs) + [Reads(r, last)]
      && (forall i :: 0 <= i < |vs| - 1 ==> vs[i] != planned)
      && (|vs| < max ==> vs[|vs| - 1] == planned)
      && (ok <==> last == planned)
  }

  /** The attempts so far: all failed, but for the last if it has ended the loop. */
  ghost predicate Trying(shape: seq<Touch>, one: seq<Touch>, r: Reg, planned: nat, vs: seq<nat>, n: nat, done: bool) {
    && shape == Rounds(one, r, vs) && |vs| == n
    && (forall i :: 0 <= i < |vs| - 1 ==> vs[i] != planned)
    && (|vs| > 0 ==> (done <==> vs[|vs| - 1] == planned))
  }

  lemma NextRound(before: seq<Touch>, shape: seq<Touch>, one: seq<Touch>, r: Reg, planned: nat, vs: seq<nat>, n: nat, v: nat)
    requires Trying(before, one, r, planned, vs, n, false) && shape == before + one + [Reads(r, v)]
    ensures Trying(shape, one, r, planned, vs + [v], n + 1, v == planned)
  {
    OneMoreRound(one, r, vs, v);
  }

  lemma NoRoundYet(log: seq<Access>, one: seq<Touch>, r: Reg, planned: nat)
    ensures Trying(Shape(log, |log|), one, r, planned, [], 0, false)
  {
  }

  lemma TriedAtLast(before: seq<Touch>, shape: seq<Touch>, one: seq<Touch>, r: Reg, planned: nat, vs: seq<nat>, n: nat,
                    max: nat, done: bool, last: nat)
    requires Trying(before, one, r, planned, vs, n, done) && 1 <= n <= max && (!done ==> n == max)
    requires shape == before + [Reads(r, last)]
    ensures Tried(shape, one, r, planned, max, last == planned)
  {
  }

  /** Link training, bit 11 of a link status word. */
  predicate Training(v: nat) {
    v / 0x800 % 2 == 1
  }

  /** The links that a poll looks at. */
  function LinkRegs(down: bool): seq<Reg> {
    [Reg(RP, 0x52), Reg(UPSB, 0xD2)] + if down then [Reg(DSB0, 0xD2)] else []
  }

  /** The reads of link words `regs` in turn, up to the first that is training, and then of the vendor. */
  predicate LinkReads(s: seq<Touch>, regs: seq<Reg>, ok: bool)
    decreases |regs|
  {
    && s != [] && s[0].Reads?
    && if regs == [] then |s| == 1 && s[0].reg == Reg(UPSB, 0x00) && (ok <==> s[0].value % 0x1_0000 == 0x8086)
       else s[0].reg == regs[0] && if Training(s[0].value) then |s| == 1 && !ok else LinkReads(s[1..], regs[1..], ok)
  }

  /** One poll of WTLT or WTDL: the command register must read 7, and then the links and the vendor fit. */
  predicate IsPoll(s: seq<Touch>, down: bool, ok: bool) {
    && s != [] && s[0].Reads? && s[0].reg == Reg(RP, 0x04)
    && if s[0].value != 7 then |s| == 1 && !ok else LinkReads(s[1..], LinkRegs(down), ok)
  }

  /** `n` polls, all failed. */
  ghost predicate FailedPolls(s: seq<Touch>, down: bool, n: nat)
    decreases n
  {
    if n == 0 then s == []
    else exists k :: 0 <= k <= |s| && FailedPolls(s[..k], down, n - 1) && IsPoll(s[k..], down, false)
  }

  /** Fewer than `max` failed polls, and then one that succeeds. */
  ghost predicate LastPollWorks(s: seq<Touch>, down: bool, max: nat) {
    exists n: nat, k: nat :: n < max && k <= |s| && FailedPolls(s[..k], down, n) && IsPoll(s[k..], down, true)
  }

  lemma NoPollYet(log: seq<Access>, down: bool)
    ensures FailedPolls(Shape(log, |log|), down, 0)
  {
  }

  lemma {:induction false} LinkReadsAre(s: seq<Touch>, regs: seq<Reg>, vs: seq<nat>, ok: bool)
    requires 1 <= |vs| <= |regs| + 1 && |s| == |vs|
    requires forall i :: 0 <= i < |s| ==> s[i] == Reads((regs + [Reg(UPSB, 0x00)])[i], vs[i])
    requires forall i :: 0 <= i < |vs| - 1 ==> !Training(vs[i])
    requires if |vs| <= |regs| then Training(vs[|vs| - 1]) && !ok else ok <==> vs[|vs| - 1] % 0x1_0000 == 0x8086
    ensures LinkReads(s, regs, ok)
  {
    if |vs| > 1 {
      assert (regs + [Reg(UPSB, 0x00)])[1..] == regs[1..] + [Reg(UPSB, 0x00)];
      assert forall i :: 0 <= i < |s| - 1 ==> s[1..][i] == s[i + 1] && vs[1..][i] == vs[i + 1];
      assert forall i :: 0 <= i < |regs| ==>
               (regs[1..] + [Reg(UPSB, 0x00)])[i] == (regs + [Reg(UPSB, 0x00)])[i + 1];
      LinkReadsAre(s[1..], regs[1..], vs[1..], ok);
    }
  }

  lemma OneMorePoll(s: seq<Touch>, poll: seq<Touch>, down: bool, n: nat, max: nat, ok: bool)
    requires FailedPolls(s, down, n) && IsPoll(poll, down, ok) && n < max
    ensures if ok then LastPollWorks(s + poll, down, max) else FailedPolls(s + poll, down, n + 1)
  {
    var k := |s|;
    assert (s + poll)[..k] == s && (s + poll)[k..] == poll;
  }

  /** What the accesses of stage `k` look like when it fails: every attempt that the code allows was made. */
  ghost predicate StageFailed(shape: seq<Touch>, saved: Names, k: nat) {
    match k
    case 0 => Tried(shape, RootPortStores(), R_20, Saved(saved, R_20), 10, false)
    case 1 => Tried(shape, BridgeStores(UPSB), UP19, Saved(saved, UP19), 10, false)
    case 2 => FailedPolls(shape, false, 2000)
    case 3 => Tried(shape, DsbStores(), DP19, Saved(saved, DP19), 10, false)
    case 4 => FailedPolls(shape, true, 2000)
    case _ => Tried(shape, NhiStores(), NH10, Saved(saved, NH10), 100, false)
  }

  /** The trace passed the stages before some stage and then failed in it. */
  ghost predicate FailedIn(log: seq<Access>, saved: Names, k: nat) {
    exists p :: 0 <= p <= |log| && PassedBefore(log[..p], saved, k) && StageFailed(Shape(log, p), saved, k)
  }

  lemma WroteFewer(log: seq<Access>, saved: Names, units: set<Unit>, fewer: set<Unit>)
    requires Wrote(log, saved, units) && fewer <= units
    ensures Wrote(log, saved, fewer)
  {
  }

  lemma NothingYet(saved: Names)
    ensures PassedBefore([], saved, 0) && FollowsPlan([], saved) && Tidy([])
  {
  }

  lemma StagePassed(log: seq<Access>, saved: Names, k: nat)
    requires Entered(log, saved, k) && GatePassed(log, saved, k)
    ensures Passed(log, saved, k) && PassedBefore(log, saved, k + 1)
  {
  }

  lemma StageEnds(log: seq<Access>, log': seq<Access>, saved: Names, k: nat)
    requires PassedBefore(log, saved, k) && log <= log' && StageFailed(Shape(log', |log|), saved, k)
    ensures FailedIn(log', saved, k)
  {
    assert log'[..|log|] == log;
  }

  // ---------------------------------------------------------------- the controller

  class Ridge {
    var mem: seq<Byte>
    const at: Layout
    const hw: Hardware
    var saved: Names

    ghost var start: seq<Byte>      // the memory when the trace was begun
    var log: seq<Access>            // instrumentation: the trace since then

    ghost predicate Valid()
      reads this
    {
      && at.Fits(|mem|) && |start| == |mem| && Writable(log)
      && Fitting(saved) && (forall r :: r in saved ==> Snapshotted(r))
      && mem == Memory(start, at, log, hw) && Answered(start, at, log, hw)
      && (hw.accepts ==> mem == Replay(start, at, log))
      && (hw.accepts && hw.honest ==> Truthful(start, at, log))
    }

    constructor (mem: seq<Byte>, at: Layout, hw: Hardware)
      requires at.Fits(|mem|)
      ensures Valid() && this.mem == mem && this.at == at && this.hw == hw
      ensures saved == map[] && log == []
    {
      this.mem, this.at, this.hw := mem, at, hw;
      saved, start, log := map[], mem, [];
    }

    /** Something else, a sleep cycle or firmware, rewrites the memory. */
    method Corrupt(mem': seq<Byte>)
      requires Valid() && |mem'| == |mem|
      modifies this`mem, this`start, this`log
      ensures Valid() && mem == mem'
    {
      mem, start, log := mem', mem', [];
    }

    method Read(r: Reg) returns (v: nat)
      requires Valid() && InWindow(r)
      modifies this`log
      ensures Valid() && log == old(log) + [Got(r, v)] && v < Pow256(Width(r.off))
      ensures hw.honest ==> v == Value(mem, at, r)
    {
      Aligned(at, |mem|, r);
      FromBytesFits(mem[at.Address(r)..at.Address(r) + Width(r.off)]);
      v := Answer(mem, at, log, r, hw);
      AnsweredMore(start, at, log, Got(r, v), hw);
      log := log + [Got(r, v)];
      assert log[..|log| - 1] == old(log);
    }

    /** A store: a field narrower than a dword is read with its dword first, and that read may lie too. */
    method Write(r: Reg) returns (ghost seen: Dword)
      requires Valid() && Planned(r)
      modifies this`mem, this`log
      ensures Valid() && log == old(log) + Storing(r, Plan(saved, r), seen) && |mem| == old(|mem|)
    {
      hide Replay, Truthful, Store, Memory, Answered;
      var v := Plan(saved, r);
      PlannedIsStorable(mem, at, r);
      var dword := FetchAnswer(mem, at, log, r, hw);
      ReplayStoring(start, at, log, r, v, dword);
      MemoryStoring(start, at, log, r, v, dword, hw);
      if Narrow(r) { log := log + [Fetch(r, dword)]; }
      if hw.accepts || hw.stores(log) { mem := Store(mem, at, r, v, dword); }
      log := log + [Put(r, v)];
      seen := dword;
      assert log == old(log) + Storing(r, v, seen);
    }

    // -------------------------------------------------------------- _INI: the snapshot

    /** The registers of `done` have been saved, and truly so if the hardware answers honestly. */
    ghost predicate Taken(done: set<Reg>)
      reads this
    {
      forall r :: r in done ==> r in saved && (hw.honest ==> InWindow(r) && Holds(mem, at, r, saved[r]))
    }

    method Snapshot(r: Reg, ghost done: set<Reg>) returns (ghost done': set<Reg>)
      requires Valid() && Snapshotted(r) && Taken(done)
      modifies this`saved, this`log
      ensures Valid() && done' == done + {r} && Taken(done')
    {
      PlannedInWindow(r);
      var v := Read(r);
      saved := saved[r := v];
      done' := done + {r};
    }

    /** Bus numbers and the I/O window of a bridge. */
    method SnapshotBuses(u: Unit, ghost done: set<Reg>) returns (ghost done': set<Reg>)
      requires Valid() && u in {UPSB, DSB0, DSB1, DSB2} && Taken(done)
      modifies this`saved, this`log
      ensures Valid() && Taken(done') && done <= done'
      ensures BusRegs(u) <= done'
    {
      done' := Snapshot(Reg(u, PRIMARY), done);
      done' := Snapshot(Reg(u, SECONDARY), done');
      done' := Snapshot(Reg(u, SUBORDINATE), done');
      done' := Snapshot(Reg(u, IO), done');
    }

    /** Memory windows of the root port or a bridge; the code has no R22C = DP2C. */
    method SnapshotWindows(u: Unit, ghost done: set<Reg>) returns (ghost done': set<Reg>)
      requires Valid() && u != NHI && Taken(done)
      modifies this`saved, this`log
      ensures Valid() && Taken(done') && done <= done'
      ensures WindowRegs(u) <= done'
    {
      done' := Snapshot(Reg(u, MEMORY), done);
      done' := Snapshot(Reg(u, PREFETCH), done');
      done' := Snapshot(Reg(u, BASE_UPPER), done');
      if u != DSB0 { done' := Snapshot(Reg(u, LIMIT_UPPER), done'); }
    }

    method SnapshotBridge(u: Unit, ghost done: set<Reg>) returns (ghost done': set<Reg>)
      requires Valid() && u in {UPSB, DSB0, DSB1, DSB2} && Taken(done)
      modifies this`saved, this`log
      ensures Valid() && Taken(done') && done <= done' && BusRegs(u) + WindowRegs(u) <= done'
    {
      done' := SnapshotBuses(u, done);
      done' := SnapshotWindows(u, done');
    }

    method SnapshotRest(ghost done: set<Reg>) returns (ghost done': set<Reg>)
      requires Valid() && Taken(done)
      modifies this`saved, this`log
      ensures Valid() && Taken(done') && done <= done' && {Reg(DSB2, VES), NH10, Reg(NHI, BAR1)} <= done'
    {
      done' := Snapshot(Reg(DSB2, VES), done);
      done' := Snapshot(NH10, done');
      done' := Snapshot(Reg(NHI, BAR1), done');
    }

    /** The register saves of _INI. */
    method Ini()
      requires Valid()
      modifies this`saved, this`log
      ensures Valid() && forall r :: r in saved <==> Snapshotted(r)
      ensures hw.honest ==> forall r :: Snapshotted(r) ==> InWindow(r) && Holds(mem, at, r, saved[r])
    {
      hide BusRegs, WindowRegs, Snapshotted, Planned, Holds, InWindow;
      ghost var done := SnapshotWindows(RP, {});
      done := SnapshotBridge(UPSB, done);
      done := SnapshotBridge(DSB0, done);
      done := SnapshotBridge(DSB1, done);
      done := SnapshotBridge(DSB2, done);
      done := SnapshotRest(done);
      SnapshotIsTotal(done);
    }

    // -------------------------------------------------------------- CNHI: the restore

    /** The trace follows the plan and stands in stage `k`. */
    ghost predicate InStage(k: nat)
      reads this
    {
      Valid() && FollowsPlan(log, saved) && Entered(log, saved, k) && Tidy(log)
    }

    /** A store of a register that is alone in its dword. */
    method StageWrite(r: Reg, ghost k: nat)
      requires InStage(k) && Planned(r) && r.unit in StageUnits(k)
      requires r.off !in {PRIMARY, SECONDARY, SUBORDINATE}
      modifies this`mem, this`log
      ensures InStage(k) && |mem| == old(|mem|)
      ensures old(log) <= log && Put(r, Plan(saved, r)) in log && |log| == |old(log)| + Cost(r)
      ensures forall from: nat :: from <= |old(log)| ==> Shape(log, from) == Shape(old(log), from) + [Stores(r)]
    {
      ghost var seen := Write(r);
      StoringIsWrite(old(log), saved, r, seen);
      StageContinues(old(log), log, saved, k);
      StoringIsTidy(old(log), saved, r, seen);
      StoringShapes(old(log), r, Plan(saved, r), seen);
    }

    /** The stores of the three bus numbers of a bridge, in their order. */
    method StageBusNumbers(u: Unit, ghost k: nat)
      requires InStage(k) && IsBridge(u) && u in StageUnits(k)
      modifies this`mem, this`log
      ensures InStage(k) && |mem| == old(|mem|) && old(log) <= log && |log| == |old(log)| + 6
      ensures forall r :: r in BusRegs(u) && r.off != IO ==> Put(r, Plan(saved, r)) in log
      ensures forall from: nat :: from <= |old(log)| ==> Shape(log, from) == Shape(old(log), from) + BusStores(u)
    {
      ghost var seen := Write(Reg(u, PRIMARY));
      ghost var log1 := log;
      ghost var seen1 := Write(Reg(u, SECONDARY));
      ghost var log2 := log;
      ghost var seen2 := Write(Reg(u, SUBORDINATE));
      BusNumbersAreTidy(old(log), saved, u, seen, seen1, seen2);
      assert log == BusNumbersLog(old(log), saved, u, seen, seen1, seen2);
      StageContinues(old(log), log, saved, k);
      BusNumbersShapes(old(log), saved, u, seen, seen1, seen2);
      hide Shape;
    }

    method StageRead(r: Reg, ghost k: nat) returns (v: nat)
      requires InStage(k) && InWindow(r)
      modifies this`log
      ensures InStage(k) && log == old(log) + [Got(r, v)]
      ensures hw.honest && hw.accepts ==> v == Value(Replay(start, at, log), at, r)
      ensures forall from: nat :: from <= |old(log)| ==> Shape(log, from) == Shape(old(log), from) + [Reads(r, v)]
    {
      v := Read(r);
      StageContinues(old(log), log, saved, k);
      GotIsTidy(old(log), r, v);
      GotShapes(old(log), r, v);
    }

    /** Read a written register back and compare it with its planned value. */
    method StageReadBack(r: Reg, ghost k: nat) returns (same: bool, v: nat)
      requires InStage(k) && Planned(r) && Put(r, Plan(saved, r)) in log
      modifies this`log
      ensures InStage(k) && log == old(log) + [Got(r, v)] && (same <==> v == Plan(saved, r))
      ensures forall from: nat :: from <= |old(log)| ==>
                Shape(log, from) == Shape(old(log), from) + [Reads(r, v)]
      ensures hw.honest && hw.accepts ==> same
    {
      PlannedInWindow(r);
      v := StageRead(r, k);
      if hw.honest && hw.accepts { RegisterRestored(start, at, log, saved, r); }
      same := v == Plan(saved, r);
    }

    /** Read a status register, which no planned write changes. */
    method StageReadStatus(r: Reg, ghost k: nat) returns (v: nat)
      requires InStage(k) && r in {RPLT, UPLT, DPLT, UPVD}
      modifies this`log
      ensures InStage(k) && log == old(log) + [Got(r, v)]
      ensures forall from: nat :: from <= |old(log)| ==>
                Shape(log, from) == Shape(old(log), from) + [Reads(r, v)]
      ensures hw.honest && hw.accepts ==> v == Status(start, at, r)
    {
      v := StageRead(r, k);
      StatusUntouched(start, at, log, r);
    }

    method RestoreRootPort()
      requires InStage(0)
      modifies this`mem, this`log
      ensures InStage(0) && |mem| == old(|mem|) && old(log) <= log && Wrote(log, saved, {RP})
      ensures |log| == |old(log)| + 6
      ensures forall from: nat :: from <= |old(log)| ==>
                Shape(log, from) == Shape(old(log), from) + RootPortStores()
    {
      hide InStage, Valid, Entered, FollowsPlan, Shape;
      StageWrite(R_20, 0);
      StageWrite(Reg(RP, PREFETCH), 0);
      StageWrite(Reg(RP, BASE_UPPER), 0);
      StageWrite(Reg(RP, LIMIT_UPPER), 0);
      StageWrite(RPR4, 0);
    }

    method RestoreNhi()
      requires InStage(5)
      modifies this`mem, this`log
      ensures InStage(5) && |mem| == old(|mem|) && old(log) <= log && Wrote(log, saved, {NHI})
      ensures |log| == |old(log)| + 4
      ensures forall from: nat :: from <= |old(log)| ==>
                Shape(log, from) == Shape(old(log), from) + NhiStores()
    {
      hide InStage, Valid, Entered, FollowsPlan, Shape;
      StageWrite(NH10, 5);
      StageWrite(Reg(NHI, BAR1), 5);
      StageWrite(Reg(NHI, COMMAND), 5);
    }

    /** Stage 0: the root port, up to ten attempts. */
    method ConfigureRootPort() returns (ok: bool)
      requires InStage(0)
      modifies this`mem, this`log
      ensures InStage(0) && |mem| == old(|mem|) && Wrote(log, saved, {RP})
      ensures ok ==> GatePassed(log, saved, 0)
      ensures Tried(Shape(log, |old(log)|), RootPortStores(), R_20, Saved(saved, R_20), 10, ok)
      ensures hw.honest && hw.accepts ==> ok
      ensures old(log) <= log && |log| <= |old(log)| + 10 * 7 + 1
    {
      hide InStage, Valid, Entered, FollowsPlan, Shape, Trying, Tried, RootPortStores;
      var local0, same, v := 10, false, 0;
      ghost var from, vs := |log|, [];
      NoRoundYet(log, RootPortStores(), R_20, Saved(saved, R_20));
      while local0 != 0
        invariant |log| <= |old(log)| + (10 - local0) * 7 && old(log) <= log && !same
        invariant 0 <= local0 <= 10 && InStage(0) && |mem| == old(|mem|)
        invariant local0 < 10 ==> Wrote(log, saved, {RP})
        invariant Trying(Shape(log, from), RootPortStores(), R_20, Saved(saved, R_20), vs, 10 - local0, same)
      {
        ghost var before := Shape(log, from);
        RestoreRootPort();
        same, v := StageReadBack(R_20, 0);
        NextRound(before, Shape(log, from), RootPortStores(), R_20, Saved(saved, R_20), vs, 10 - local0, v);
        vs := vs + [v];
        if same { break; }
        local0 := local0 - 1;
      }
      ghost var before := Shape(log, from);
      ok, v := StageReadBack(R_20, 0);
      TriedAtLast(before, Shape(log, from), RootPortStores(), R_20, Saved(saved, R_20), vs,
        10 - local0 + (if same then 1 else 0), 10, same, v);
    }

    method RestoreBuses(u: Unit, ghost k: nat)
      requires InStage(k) && u in {UPSB, DSB0, DSB1, DSB2} && u in StageUnits(k)
      modifies this`mem, this`log
      ensures InStage(k) && |mem| == old(|mem|) && old(log) <= log
      ensures forall r :: r in BusRegs(u) ==> Put(r, Plan(saved, r)) in log
      ensures |log| == |old(log)| + 8
      ensures forall from: nat :: from <= |old(log)| ==>
                Shape(log, from) == Shape(old(log), from) + (BusStores(u) + [Stores(Reg(u, 0x1C))])
    {
      hide InStage, Valid, Entered, FollowsPlan, Shape, BusStores;
      StageBusNumbers(u, k);
      StageWrite(Reg(u, IO), k);
    }

    method RestoreWindows(u: Unit, ghost k: nat)
      requires InStage(k) && u in {UPSB, DSB0, DSB1, DSB2} && u in StageUnits(k)
      modifies this`mem, this`log
      ensures InStage(k) && |mem| == old(|mem|) && old(log) <= log
      ensures forall r :: r in WindowRegs(u) + {Reg(u, LIMIT_UPPER)} ==> Put(r, Plan(saved, r)) in log
      ensures |log| == |old(log)| + 4
      ensures forall from: nat :: from <= |old(log)| ==>
                Shape(log, from) == Shape(old(log), from) + WindowStores(u)
    {
      hide InStage, Valid, Entered, FollowsPlan, Plan, Shape;
      StageWrite(Reg(u, MEMORY), k);
      StageWrite(Reg(u, PREFETCH), k);
      StageWrite(Reg(u, BASE_UPPER), k);
      StageWrite(Reg(u, LIMIT_UPPER), k);
    }

    /** The writes of one bridge, in their order; those of DSB2 include offset 0x564. */
    method RestoreBridge(u: Unit, ghost k: nat)
      requires InStage(k) && u in {UPSB, DSB0, DSB1, DSB2} && u in StageUnits(k)
      modifies this`mem, this`log
      ensures InStage(k) && |mem| == old(|mem|) && old(log) <= log && Wrote(log, saved, {u})
      ensures |log| == |old(log)| + if u == DSB2 then 15 else 14
      ensures forall from: nat :: from <= |old(log)| ==>
                Shape(log, from) == Shape(old(log), from) + BridgeStores(u)
    {
      hide InStage, Valid, Entered, FollowsPlan, Plan, Wrote, Planned, Shape, BusStores, WindowStores;
      RestoreBuses(u, k);
      RestoreWindows(u, k);
      BridgePlan(u);
      if u == DSB2 { StageWrite(Reg(u, VES), k); }
      StageWrite(Reg(u, COMMAND), k);
      BridgeWrote(log, saved, u);
    }

    /** Stage 1: the upstream port, up to ten attempts. */
    method ConfigureUpsb() returns (ok: bool)
      requires InStage(1) && Wrote(log, saved, {RP})
      modifies this`mem, this`log
      ensures InStage(1) && |mem| == old(|mem|) && Wrote(log, saved, {RP, UPSB})
      ensures ok ==> GatePassed(log, saved, 1)
      ensures Tried(Shape(log, |old(log)|), BridgeStores(UPSB), UP19, Saved(saved, UP19), 10, ok)
      ensures hw.honest && hw.accepts ==> ok
      ensures old(log) <= log && |log| <= |old(log)| + 10 * 15 + 1
    {
      hide InStage, Valid, Entered, FollowsPlan, Shape, Trying, Tried, BridgeStores;
      var local0, same, v := 10, false, 0;
      ghost var from, vs := |log|, [];
      NoRoundYet(log, BridgeStores(UPSB), UP19, Saved(saved, UP19));
      while local0 != 0
        invariant |log| <= |old(log)| + (10 - local0) * 15 && old(log) <= log && !same
        invariant 0 <= local0 <= 10 && InStage(1) && |mem| == old(|mem|) && Wrote(log, saved, {RP})
        invariant local0 < 10 ==> Wrote(log, saved, {UPSB})
        invariant Trying(Shape(log, from), BridgeStores(UPSB), UP19, Saved(saved, UP19), vs, 10 - local0, same)
      {
        ghost var before := Shape(log, from);
        RestoreBridge(UPSB, 1);
        same, v := StageReadBack(UP19, 1);
        NextRound(before, Shape(log, from), BridgeStores(UPSB), UP19, Saved(saved, UP19), vs, 10 - local0, v);
        vs := vs + [v];
        if same { break; }
        local0 := local0 - 1;
      }
      ghost var before := Shape(log, from);
      ok, v := StageReadBack(UP19, 1);
      TriedAtLast(before, Shape(log, from), BridgeStores(UPSB), UP19, Saved(saved, UP19), vs,
        10 - local0 + (if same then 1 else 0), 10, same, v);
    }

    method RestoreDsb()
      requires InStage(3)
      modifies this`mem, this`log
      ensures InStage(3) && |mem| == old(|mem|) && old(log) <= log && Wrote(log, saved, {DSB0, DSB1, DSB2})
      ensures |log| == |old(log)| + 43
      ensures forall from: nat :: from <= |old(log)| ==>
                Shape(log, from) == Shape(old(log), from) + DsbStores()
    {
      hide InStage, Valid, Entered, FollowsPlan, Planned, Plan, Shape, BridgeStores;
      RestoreBridge(DSB0, 3);
      RestoreBridge(DSB1, 3);
      RestoreBridge(DSB2, 3);
    }

    /** Stage 3: the three downstream bridges, up to ten attempts. */
    method ConfigureDsb() returns (ok: bool)
      requires InStage(3) && Wrote(log, saved, {RP, UPSB})
      modifies this`mem, this`log
      ensures InStage(3) && |mem| == old(|mem|) && Wrote(log, saved, {RP, UPSB, DSB0, DSB1, DSB2})
      ensures ok ==> GatePassed(log, saved, 3)
      ensures Tried(Shape(log, |old(log)|), DsbStores(), DP19, Saved(saved, DP19), 10, ok)
      ensures hw.honest && hw.accepts ==> ok
      ensures old(log) <= log && |log| <= |old(log)| + 10 * 44 + 1
    {
      hide InStage, Valid, Entered, FollowsPlan, Shape, Trying, Tried, DsbStores;
      var local0, same, v := 10, false, 0;
      ghost var from, vs := |log|, [];
      NoRoundYet(log, DsbStores(), DP19, Saved(saved, DP19));
      while local0 != 0
        invariant |log| <= |old(log)| + (10 - local0) * 44 && old(log) <= log && !same
        invariant 0 <= local0 <= 10 && InStage(3) && |mem| == old(|mem|) && Wrote(log, saved, {RP, UPSB})
        invariant local0 < 10 ==> Wrote(log, saved, {DSB0, DSB1, DSB2})
        invariant Trying(Shape(log, from), DsbStores(), DP19, Saved(saved, DP19), vs, 10 - local0, same)
      {
        ghost var before := Shape(log, from);
        RestoreDsb();
        same, v := StageReadBack(DP19, 3);
        NextRound(before, Shape(log, from), DsbStores(), DP19, Saved(saved, DP19), vs, 10 - local0, v);
        vs := vs + [v];
        if same { break; }
        local0 := local0 - 1;
      }
      ghost var before := Shape(log, from);
      ok, v := StageReadBack(DP19, 3);
      TriedAtLast(before, Shape(log, from), DsbStores(), DP19, Saved(saved, DP19), vs,
        10 - local0 + (if same then 1 else 0), 10, same, v);
    }

    /** Stage 5: the host interface, up to a hundred attempts. */
    method ConfigureNhi() returns (ok: bool)
      requires InStage(5) && Wrote(log, saved, {RP, UPSB, DSB0, DSB1, DSB2})
      modifies this`mem, this`log
      ensures InStage(5) && |mem| == old(|mem|) && Wrote(log, saved, {RP, UPSB, DSB0, DSB1, DSB2, NHI})
      ensures ok ==> GatePassed(log, saved, 5)
      ensures Tried(Shape(log, |old(log)|), NhiStores(), NH10, Saved(saved, NH10), 100, ok)
      ensures hw.honest && hw.accepts ==> ok
      ensures old(log) <= log && |log| <= |old(log)| + 100 * 5 + 1
    {
      hide InStage, Valid, Entered, FollowsPlan, Shape, Trying, Tried, NhiStores;
      var local0, same, v := 100, false, 0;
      ghost var from, vs := |log|, [];
      NoRoundYet(log, NhiStores(), NH10, Saved(saved, NH10));
      while local0 != 0
        invariant |log| <= |old(log)| + (100 - local0) * 5 && old(log) <= log && !same
        invariant 0 <= local0 <= 100 && InStage(5) && |mem| == old(|mem|) && Wrote(log, saved, {RP, UPSB, DSB0, DSB1, DSB2})
        invariant local0 < 100 ==> Wrote(log, saved, {NHI})
        invariant Trying(Shape(log, from), NhiStores(), NH10, Saved(saved, NH10), vs, 100 - local0, same)
      {
        ghost var before := Shape(log, from);
        RestoreNhi();
        same, v := StageReadBack(NH10, 5);
        NextRound(before, Shape(log, from), NhiStores(), NH10, Saved(saved, NH10), vs, 100 - local0, v);
        vs := vs + [v];
        if same { break; }
        local0 := local0 - 1;
      }
      ghost var before := Shape(log, from);
      ok, v := StageReadBack(NH10, 5);
      TriedAtLast(before, Shape(log, from), NhiStores(), NH10, Saved(saved, NH10), vs,
        100 - local0 + (if same then 1 else 0), 100, same, v);
    }

    /** The checks of WTLT and WTDL: the command register, the links, then the vendor; it stops at the first failure. */
    method LinksReady(down: bool, ghost k: nat) returns (ok: bool, ghost poll: seq<Touch>)
      requires InStage(k) && Wrote(log, saved, {RP})
      modifies this`log
      ensures InStage(k) && old(log) <= log
      ensures ok ==> if down then DownLinkSeen(log) else UpLinkSeen(log)
      ensures IsPoll(poll, down, ok)
      ensures forall from: nat :: from <= |old(log)| ==> Shape(log, from) == Shape(old(log), from) + poll
      ensures hw.honest && hw.accepts ==> (ok <==> LinksUp(start, at, down))
      ensures |log| <= |old(log)| + if down then 5 else 4
    {
      hide InStage, Valid, Entered, FollowsPlan, LinksUp, Shape, LinkReads;
      var command, v := StageReadBack(RPR4, k);
      poll := [Reads(RPR4, v)];
      ok := false;
      if command {
        ghost var words;
        ok, words := LinksTrained(down, k);
        assert [Reads(RPR4, v)] + words == poll + words && (poll + words)[1..] == words;
        poll := poll + words;
      }
    }

    /** ULTC or DLTC, and UPCK: the link words in turn, up to the first that is training, then the vendor. */
    method LinksTrained(down: bool, ghost k: nat) returns (ok: bool, ghost words: seq<Touch>)
      requires InStage(k) && log != [] && log[|log| - 1] == Got(RPR4, 7)
      modifies this`log
      ensures InStage(k) && old(log) <= log
      ensures ok ==> if down then DownLinkSeen(log) else UpLinkSeen(log)
      ensures LinkReads(words, LinkRegs(down), ok)
      ensures forall from: nat :: from <= |old(log)| ==> Shape(log, from) == Shape(old(log), from) + words
      ensures hw.honest && hw.accepts ==> (ok <==> LinksUp(start, at, down))
      ensures |log| <= |old(log)| + if down then 4 else 3
    {
      hide InStage, Valid, Entered, FollowsPlan, Status, Shape, LinkReads;
      ok := false;
      var rplt := StageReadStatus(RPLT, k);
      words := [Reads(RPLT, rplt)];
      if rplt / 0x800 % 2 == 0 {
        var uplt := StageReadStatus(UPLT, k);
        words := [Reads(RPLT, rplt), Reads(UPLT, uplt)];
        if uplt / 0x800 % 2 == 0 {
          if down {
            var dplt := StageReadStatus(DPLT, k);
            words := [Reads(RPLT, rplt), Reads(UPLT, uplt), Reads(DPLT, dplt)];
            if dplt / 0x800 % 2 == 0 {
              var upvd := StageReadStatus(UPVD, k);
              ok := upvd % 0x1_0000 == 0x8086;
              words := [Reads(RPLT, rplt), Reads(UPLT, uplt), Reads(DPLT, dplt), Reads(UPVD, upvd)];
              LinkReadsAre(words, LinkRegs(down), [rplt, uplt, dplt, upvd], ok);
            } else {
              LinkReadsAre(words, LinkRegs(down), [rplt, uplt, dplt], false);
            }
          } else {
            var upvd := StageReadStatus(UPVD, k);
            ok := upvd % 0x1_0000 == 0x8086;
            words := [Reads(RPLT, rplt), Reads(UPLT, uplt), Reads(UPVD, upvd)];
            LinkReadsAre(words, LinkRegs(down), [rplt, uplt, upvd], ok);
          }
        } else {
          LinkReadsAre(words, LinkRegs(down), [rplt, uplt], false);
        }
      } else {
        LinkReadsAre(words, LinkRegs(down), [rplt], false);
      }
    }

    /** WTLT and WTDL: poll up to 2000 times. */
    method WaitForLinks(down: bool, ghost k: nat) returns (local1: bool)
      requires InStage(k) && Wrote(log, saved, {RP})
      modifies this`log
      ensures InStage(k) && old(log) <= log
      ensures local1 ==> if down then DownLinkSeen(log) else UpLinkSeen(log)
      ensures var shape := Shape(log, |old(log)|);
              if local1 then LastPollWorks(shape, down, 2000) else FailedPolls(shape, down, 2000)
      ensures hw.honest && hw.accepts ==> (local1 <==> LinksUp(start, at, down))
      ensures |log| <= |old(log)| + 2000 * if down then 5 else 4
    {
      hide InStage, Valid, Entered, FollowsPlan, Shape, IsPoll, FailedPolls, LastPollWorks;
      var local0 := 2000;
      ghost var from := |log|;
      local1 := false;
      NoPollYet(log, down);
      while local0 != 0
        invariant |log| <= |old(log)| + (2000 - local0) * if down then 5 else 4
        invariant 0 <= local0 <= 2000 && InStage(k) && old(log) <= log && !local1
        invariant FailedPolls(Shape(log, from), down, 2000 - local0)
        invariant local0 < 2000 && hw.honest && hw.accepts ==> !LinksUp(start, at, down)
      {
        ghost var before := Shape(log, from);
        var ready;
        ghost var poll;
        ready, poll := LinksReady(down, k);
        OneMorePoll(before, poll, down, 2000 - local0, 2000, ready);
        if ready {
          local1 := true;
          break;
        }
        local0 := local0 - 1;
      }
    }

    /** The stages up to the first wait for the links. */
    method RunFirstStages() returns (ok: bool)
      requires Valid() && log == []
      modifies this`mem, this`log
      ensures Valid() && |mem| == old(|mem|) && FollowsPlan(log, saved) && Tidy(log)
      ensures !ok ==> exists k :: 0 <= k < 6 && Entered(log, saved, k) && FailedIn(log, saved, k)
      ensures ok ==> PassedBefore(log, saved, 3) && Wrote(log, saved, {RP, UPSB})
      ensures hw.honest && hw.accepts ==> (ok <==> LinksUp(start, at, false))
      ensures |log| <= (10 * 7 + 1) + (10 * 15 + 1) + 2000 * 4
    {
      hide Shape, Tried, FailedPolls, LastPollWorks, FailedIn, LinksUp;
      hide Entered, PassedBefore, Wrote, Valid, FollowsPlan, Tidy;
      NothingYet(saved);
      StageBegins(log, saved, 0);
      ghost var log0 := log;
      ok := ConfigureRootPort();
      if !ok {
        StageEnds(log0, log, saved, 0);
        return;
      }
      StagePassed(log, saved, 0);
      StageBegins(log, saved, 1);
      ghost var log1 := log;
      ok := ConfigureUpsb();
      if !ok {
        StageEnds(log1, log, saved, 1);
        return;
      }
      StagePassed(log, saved, 1);
      StageBegins(log, saved, 2);
      ghost var log2 := log;
      WroteFewer(log, saved, {RP, UPSB}, {RP});
      ok := WaitForLinks(false, 2);
      if !ok {
        StageEnds(log2, log, saved, 2);
        return;
      }
      StagePassed(log, saved, 2);
      WroteStays(log2, log, saved, {RP, UPSB});
    }

    /** The stages behind the first wait. */
    method RunLastStages() returns (ok: bool)
      requires Valid() && FollowsPlan(log, saved) && Tidy(log)
      requires PassedBefore(log, saved, 3) && Wrote(log, saved, {RP, UPSB})
      modifies this`mem, this`log
      ensures Valid() && |mem| == old(|mem|) && FollowsPlan(log, saved) && Tidy(log)
      ensures exists k :: 0 <= k < 6 && Entered(log, saved, k) && (!ok ==> FailedIn(log, saved, k))
      ensures ok ==> Passed(log, saved, 5) && Wrote(log, saved, {RP, UPSB, DSB0, DSB1, DSB2, NHI})
      ensures hw.honest && hw.accepts ==> (ok <==> LinksUp(start, at, true))
      ensures |log| <= |old(log)| + (10 * 44 + 1) + 2000 * 5 + (100 * 5 + 1)
    {
      hide Shape, Tried, FailedPolls, LastPollWorks, FailedIn, LinksUp;
      hide Entered, PassedBefore, Wrote, Valid, FollowsPlan, Tidy;
      hide Passed, UpLinkSeen, DownLinkSeen, ReadBack, DsbStores, NhiStores;
      StageBegins(log, saved, 3);
      ghost var log3 := log;
      ok := ConfigureDsb();
      if !ok {
        StageEnds(log3, log, saved, 3);
        return;
      }
      StagePassed(log, saved, 3);
      StageBegins(log, saved, 4);
      ghost var log4 := log;
      WroteFewer(log, saved, {RP, UPSB, DSB0, DSB1, DSB2}, {RP});
      ok := WaitForLinks(true, 4);
      if !ok {
        StageEnds(log4, log, saved, 4);
        return;
      }
      StagePassed(log, saved, 4);
      WroteStays(log4, log, saved, {RP, UPSB, DSB0, DSB1, DSB2});
      StageBegins(log, saved, 5);
      ghost var log5 := log;
      ok := ConfigureNhi();
      if !ok {
        StageEnds(log5, log, saved, 5);
        return;
      }
      StagePassed(log, saved, 5);
    }

    /** Six stages; the first failure ends the restore. */
    method RunStages() returns (ok: bool)
      requires Valid() && log == []
      modifies this`mem, this`log
      ensures Valid() && |mem| == old(|mem|) && FollowsPlan(log, saved) && Tidy(log)
      ensures exists k :: 0 <= k < 6 && Entered(log, saved, k) && (!ok ==> FailedIn(log, saved, k))
      ensures ok ==> Passed(log, saved, 5) && Wrote(log, saved, {RP, UPSB, DSB0, DSB1, DSB2, NHI})
      ensures hw.honest && hw.accepts ==> (ok <==> LinksUp(start, at, true))
      ensures |log| <= MAX_ACCESSES
    {
      hide Valid, FollowsPlan, Tidy, Entered, FailedIn, PassedBefore, Wrote, Passed;
      ok := RunFirstStages();
      if ok { ok := RunLastStages(); }
    }

    /**
      CNHI. Whatever the hardware answers, the writes follow the plan and the staging. On hardware
      that accepts writes, success means that every planned register reads as planned, but for the
      first two bus numbers of a bridge, which are what the read inside the last store of its
      subordinate bus number told; and no dword without a planned register ever changes. On
      hardware that also answers honestly every planned register reads as planned, no other byte
      ever changes, and it succeeds exactly when the links are trained and the upstream port is
      Intel's.
     */
    method CNHI() returns (ok: bool)
      requires Valid()
      modifies this`mem, this`log, this`start
      ensures Valid() && |mem| == old(|mem|) && FollowsPlan(log, saved)
      ensures exists k :: 0 <= k < 6 && Entered(log, saved, k) && (!ok ==> FailedIn(log, saved, k))
      ensures ok ==> Passed(log, saved, 5)
      ensures hw.accepts && ok ==> MostlyRestored(mem, at, saved) && BusNumbersTold(mem, at, log)
      ensures hw.accepts && ok ==> (Restored(mem, at, saved) <==> PlannedTold(log, saved))
      ensures hw.accepts ==> forall a :: 0 <= a < |mem| && OutsideDwords(at, a) ==> mem[a] == old(mem)[a]
      ensures hw.honest && hw.accepts && ok ==> Restored(mem, at, saved)
      ensures hw.honest && hw.accepts ==> forall a :: 0 <= a < |mem| && Outside(at, a) ==> mem[a] == old(mem)[a]
      ensures hw.honest && hw.accepts ==> (ok <==> LinksUp(old(mem), at, true))
      ensures |log| <= MAX_ACCESSES
    {
      start, log := mem, [];
      ok := RunStages();
      if ok { WroteAll(log, saved); }
      LyingOutcome(start, at, log, saved);
      if hw.accepts && ok { RestoredIff(mem, at, log, saved); }
      if hw.accepts && hw.honest { PlanOutcome(start, at, log, saved); }
    }
  }

  /** Restoring a true snapshot of `mem` into `mem'` brings its registers back. */
  lemma SnapshotRestored(mem: seq<Byte>, mem': seq<Byte>, at: Layout, saved: Names)
    requires forall r :: r in saved <==> Snapshotted(r)
    requires forall r :: Snapshotted(r) ==> InWindow(r) && Holds(mem, at, r, saved[r])
    requires Restored(mem', at, saved)
    ensures forall r :: Snapshotted(r) ==> Status(mem', at, r) == Status(mem, at, r)
    ensures forall r :: Planned(r) && r.off == COMMAND ==> Status(mem', at, r) == 7
    ensures Status(mem', at, DP2C) == 0
  {
    forall r | Planned(r)
      ensures Status(mem', at, r) == Plan(saved, r)
    {
      assert Holds(mem', at, r, Plan(saved, r));
    }
    forall r | Snapshotted(r)
      ensures Status(mem, at, r) == saved[r]
    {
      assert Holds(mem, at, r, saved[r]);
    }
    assert Planned(DP2C);
  }

  /**
    The round trip: take the snapshot on honest hardware, let anything happen to the memory, and
    restore. On success every snapshotted register holds its old value again, every command
    register holds 7, and DP2C, which the snapshot forgets, holds 0.
   */
  method SaveCorruptRestore(ridge: Ridge, corrupted: seq<Byte>) returns (ok: bool)
    requires ridge.Valid() && ridge.hw.honest && ridge.hw.accepts && |corrupted| == |ridge.mem|
    modifies ridge
    ensures ok ==> forall r :: Snapshotted(r) ==>
              Status(ridge.mem, ridge.at, r) == old(Status(ridge.mem, ridge.at, r))
    ensures ok ==> forall r :: Planned(r) && r.off == COMMAND ==> Status(ridge.mem, ridge.at, r) == 7
    ensures ok ==> Status(ridge.mem, ridge.at, DP2C) == 0
    ensures ok <==> LinksUp(corrupted, ridge.at, true)
  {
    hide Restored, Status, Holds, Planned, LinksUp;
    ghost var mem := ridge.mem;
    ridge.Ini();
    ghost var saved := ridge.saved;
    ridge.Corrupt(corrupted);
    ok := ridge.CNHI();
    if ok { SnapshotRestored(mem, ridge.mem, ridge.at, saved); }
  }

  // ---------------------------------------------------------------- a restore that succeeds and loses bus numbers

  /** The trace follows the plan and stands, tidy, in stage `k`. */
  ghost predicate StageOk(log: seq<Access>, saved: Names, k: nat) {
    FollowsPlan(log, saved) && Entered(log, saved, k) && Tidy(log)
  }

  /** The inner read of the last store into the bus numbers of UPSB told `seen`, if any store was made. */
  ghost predicate UpsbTold(log: seq<Access>, seen: Dword) {
    var r := Reg(UPSB, SUBORDINATE);
    LastIn(log, r).Some? ==> LastFetched(log, r) == seen
  }

  lemma ToldMore(log: seq<Access>, e: Access, seen: Dword)
    requires UpsbTold(log, seen)
    requires !e.Put? || !SameDword(e.reg, Reg(UPSB, SUBORDINATE)) || (log != [] && log[|log| - 1] == Fetch(e.reg, seen))
    ensures UpsbTold(log + [e], seen)
  {
    assert (log + [e])[..|log|] == log;
  }

  lemma ToldStoring(log: seq<Access>, r: Reg, v: nat, seen: Dword)
    requires UpsbTold(log, seen) && (SameDword(r, Reg(UPSB, SUBORDINATE)) ==> Narrow(r))
    ensures UpsbTold(log + Storing(r, v, seen), seen)
  {
    hide UpsbTold;
    if Narrow(r) {
      ToldMore(log, Fetch(r, seen), seen);
      assert (log + [Fetch(r, seen)])[|log|] == Fetch(r, seen);
      ToldMore(log + [Fetch(r, seen)], Put(r, v), seen);
      assert log + Storing(r, v, seen) == log + [Fetch(r, seen)] + [Put(r, v)];
    } else {
      ToldMore(log, Put(r, v), seen);
      assert Storing(r, v, seen) == [Put(r, v)];
    }
  }

  /** A trace grown by a store in stage `k`. */
  lemma Stored(log: seq<Access>, saved: Names, k: nat, r: Reg, seen: Dword) returns (log': seq<Access>)
    requires StageOk(log, saved, k) && UpsbTold(log, seen) && Planned(r) && r.unit in StageUnits(k)
    requires r.off !in {PRIMARY, SECONDARY, SUBORDINATE}
    ensures StageOk(log', saved, k) && UpsbTold(log', seen) && log <= log' && Put(r, Plan(saved, r)) in log'
  {
    log' := log + Storing(r, Plan(saved, r), seen);
    StoringIsWrite(log, saved, r, seen);
    StoringIsTidy(log, saved, r, seen);
    AloneOrBus(r);
    hide FollowsPlan, Entered, Tidy, UpsbTold, Plan, Storing, Planned;
    ToldStoring(log, r, Plan(saved, r), seen);
    StageContinues(log, log', saved, k);
  }

  lemma AloneOrBus(r: Reg)
    requires Planned(r)
    ensures SameDword(r, Reg(UPSB, SUBORDINATE)) ==> Narrow(r)
  {
  }

  lemma BusesStored(log: seq<Access>, saved: Names, k: nat, u: Unit, seen: Dword) returns (log': seq<Access>)
    requires StageOk(log, saved, k) && UpsbTold(log, seen) && IsBridge(u) && u in StageUnits(k)
    ensures StageOk(log', saved, k) && UpsbTold(log', seen) && log <= log'
    ensures forall r :: r in BusRegs(u) && r.off != IO ==> Put(r, Plan(saved, r)) in log'
  {
    log' := BusNumbersLog(log, saved, u, seen, seen, seen);
    BusNumbersAreTidy(log, saved, u, seen, seen, seen);
    hide FollowsPlan, Entered, Tidy, UpsbTold, Plan, Storing;
    var p, q, r := Reg(u, PRIMARY), Reg(u, SECONDARY), Reg(u, SUBORDINATE);
    var log1 := log + Storing(p, Plan(saved, p), seen);
    var log2 := log1 + Storing(q, Plan(saved, q), seen);
    ToldStoring(log, p, Plan(saved, p), seen);
    ToldStoring(log1, q, Plan(saved, q), seen);
    ToldStoring(log2, r, Plan(saved, r), seen);
    StageContinues(log, log', saved, k);
  }

  lemma WasGot(log: seq<Access>, saved: Names, k: nat, r: Reg, v: nat, seen: Dword) returns (log': seq<Access>)
    requires StageOk(log, saved, k) && UpsbTold(log, seen)
    ensures log' == log + [Got(r, v)] && StageOk(log', saved, k) && UpsbTold(log', seen)
  {
    log' := log + [Got(r, v)];
    GotIsTidy(log, r, v);
    ToldMore(log, Got(r, v), seen);
    StageContinues(log, log', saved, k);
  }

  lemma BridgeStored(log: seq<Access>, saved: Names, k: nat, u: Unit, seen: Dword) returns (log': seq<Access>)
    requires StageOk(log, saved, k) && UpsbTold(log, seen) && IsBridge(u) && u in StageUnits(k)
    ensures StageOk(log', saved, k) && UpsbTold(log', seen) && log <= log' && Wrote(log', saved, {u})
  {
    BridgePlan(u);
    hide StageOk, UpsbTold, Plan, Wrote, Planned, StageUnits;
    log' := BusesStored(log, saved, k, u, seen);
    log' := WindowsStored(log', saved, k, u, seen);
    if u == DSB2 { log' := Stored(log', saved, k, Reg(u, VES), seen); }
    log' := Stored(log', saved, k, Reg(u, COMMAND), seen);
    BridgeWrote(log', saved, u);
  }

  lemma WindowsStored(log: seq<Access>, saved: Names, k: nat, u: Unit, seen: Dword) returns (log': seq<Access>)
    requires StageOk(log, saved, k) && UpsbTold(log, seen) && IsBridge(u) && u in StageUnits(k)
    ensures StageOk(log', saved, k) && UpsbTold(log', seen) && log <= log'
    ensures forall r :: r in WindowRegs(u) + {Reg(u, LIMIT_UPPER), Reg(u, IO)} ==> Put(r, Plan(saved, r)) in log'
  {
    hide StageOk, UpsbTold, Plan, StageUnits;
    log' := Stored(log, saved, k, Reg(u, IO), seen);
    log' := Stored(log', saved, k, Reg(u, MEMORY), seen);
    log' := Stored(log', saved, k, Reg(u, PREFETCH), seen);
    log' := Stored(log', saved, k, Reg(u, BASE_UPPER), seen);
    log' := Stored(log', saved, k, Reg(u, LIMIT_UPPER), seen);
  }

  lemma RootPortStored(log: seq<Access>, saved: Names, seen: Dword) returns (log': seq<Access>)
    requires StageOk(log, saved, 0) && UpsbTold(log, seen)
    ensures StageOk(log', saved, 0) && UpsbTold(log', seen) && log <= log' && Wrote(log', saved, {RP})
  {
    hide StageOk, UpsbTold, Plan;
    log' := Stored(log, saved, 0, R_20, seen);
    log' := Stored(log', saved, 0, Reg(RP, PREFETCH), seen);
    log' := Stored(log', saved, 0, Reg(RP, BASE_UPPER), seen);
    log' := Stored(log', saved, 0, Reg(RP, LIMIT_UPPER), seen);
    log' := Stored(log', saved, 0, RPR4, seen);
  }

  lemma NhiStored(log: seq<Access>, saved: Names, seen: Dword) returns (log': seq<Access>)
    requires StageOk(log, saved, 5) && UpsbTold(log, seen)
    ensures StageOk(log', saved, 5) && UpsbTold(log', seen) && log <= log' && Wrote(log', saved, {NHI})
  {
    hide StageOk, UpsbTold, Plan;
    log' := Stored(log, saved, 5, NH10, seen);
    log' := Stored(log', saved, 5, Reg(NHI, BAR1), seen);
    log' := Stored(log', saved, 5, Reg(NHI, COMMAND), seen);
  }

  /** The reads that make WTLT, or WTDL if `down`, succeed. */
  lemma LinksGot(log: seq<Access>, saved: Names, k: nat, down: bool, seen: Dword) returns (log': seq<Access>)
    requires StageOk(log, saved, k) && UpsbTold(log, seen)
    ensures StageOk(log', saved, k) && UpsbTold(log', seen) && log <= log'
    ensures if down then DownLinkSeen(log') else UpLinkSeen(log')
  {
    hide StageOk, UpsbTold;
    log' := WasGot(log, saved, k, RPR4, 7, seen);
    log' := WasGot(log', saved, k, RPLT, 0, seen);
    log' := WasGot(log', saved, k, UPLT, 0, seen);
    if down { log' := WasGot(log', saved, k, DPLT, 0, seen); }
    log' := WasGot(log', saved, k, UPVD, 0x8086, seen);
  }

  /** The next stage begins where one has been passed. */
  lemma NextStage(log: seq<Access>, saved: Names, k: nat)
    requires StageOk(log, saved, k) && GatePassed(log, saved, k)
    ensures StageOk(log, saved, k + 1)
  {
    StageBegins(log, saved, k + 1);
  }

  lemma WroteLater(log: seq<Access>, log': seq<Access>, saved: Names, units: set<Unit>, more: set<Unit>)
    requires Wrote(log, saved, units) && log <= log' && Wrote(log', saved, more)
    ensures Wrote(log', saved, units + more)
  {
  }

  lemma FirstStages(saved: Names, seen: Dword) returns (log: seq<Access>)
    ensures StageOk(log, saved, 3) && UpsbTold(log, seen) && Wrote(log, saved, {RP, UPSB})
  {
    hide StageOk, UpsbTold, Wrote, GatePassed, UpLinkSeen;
    var log0 := StageZero(saved, seen);
    var log1 := StageOne(log0, saved, seen);
    var log2 := LinksGot(log1, saved, 2, false, seen);
    GateOfLinks(log2, saved);
    NextStage(log2, saved, 2);
    WroteStays(log1, log2, saved, {RP, UPSB});
    log := log2;
  }

  lemma GateOfLinks(log: seq<Access>, saved: Names)
    ensures GatePassed(log, saved, 2) <==> UpLinkSeen(log)
    ensures GatePassed(log, saved, 4) <==> DownLinkSeen(log)
  {
  }

  lemma StageZero(saved: Names, seen: Dword) returns (log: seq<Access>)
    ensures StageOk(log, saved, 1) && UpsbTold(log, seen) && Wrote(log, saved, {RP})
  {
    StageBegins([], saved, 0);
    assert StageOk([], saved, 0) && UpsbTold([], seen);
    hide StageOk, UpsbTold, Wrote;
    var log0 := RootPortStored([], saved, seen);
    log := WasGot(log0, saved, 0, R_20, Saved(saved, R_20), seen);
    assert log[|log| - 1] == Got(R_20, Saved(saved, R_20));
    NextStage(log, saved, 0);
    WroteStays(log0, log, saved, {RP});
  }

  lemma StageOne(log: seq<Access>, saved: Names, seen: Dword) returns (log': seq<Access>)
    requires StageOk(log, saved, 1) && UpsbTold(log, seen) && Wrote(log, saved, {RP})
    ensures StageOk(log', saved, 2) && UpsbTold(log', seen) && Wrote(log', saved, {RP, UPSB})
  {
    hide StageOk, UpsbTold, Wrote;
    var log0 := BridgeStored(log, saved, 1, UPSB, seen);
    WroteLater(log, log0, saved, {RP}, {UPSB});
    assert {RP} + {UPSB} == {RP, UPSB};
    log' := WasGot(log0, saved, 1, UP19, Saved(saved, UP19), seen);
    assert log'[|log'| - 1] == Got(UP19, Saved(saved, UP19));
    NextStage(log', saved, 1);
    WroteStays(log0, log', saved, {RP, UPSB});
  }

  lemma WroteStays(log: seq<Access>, log': seq<Access>, saved: Names, units: set<Unit>)
    requires Wrote(log, saved, units) && log <= log'
    ensures Wrote(log', saved, units)
  {
  }

  lemma LastStages(log: seq<Access>, saved: Names, seen: Dword) returns (log': seq<Access>)
    requires StageOk(log, saved, 3) && UpsbTold(log, seen) && Wrote(log, saved, {RP, UPSB})
    ensures StageOk(log', saved, 5) && UpsbTold(log', seen) && GatePassed(log', saved, 5)
    ensures Wrote(log', saved, {RP, UPSB, DSB0, DSB1, DSB2, NHI})
  {
    hide StageOk, UpsbTold, Wrote, Plan;
    var log0 := BridgeStored(log, saved, 3, DSB0, seen);
    WroteLater(log, log0, saved, {RP, UPSB}, {DSB0});
    var log1 := BridgeStored(log0, saved, 3, DSB1, seen);
    WroteLater(log0, log1, saved, {RP, UPSB} + {DSB0}, {DSB1});
    var log2 := BridgeStored(log1, saved, 3, DSB2, seen);
    WroteLater(log1, log2, saved, {RP, UPSB} + {DSB0} + {DSB1}, {DSB2});
    var log3 := WasGot(log2, saved, 3, DP19, Saved(saved, DP19), seen);
    NextStage(log3, saved, 3);
    var log4 := LinksGot(log3, saved, 4, true, seen);
    NextStage(log4, saved, 4);
    var log5 := NhiStored(log4, saved, seen);
    var bridges := {RP, UPSB} + {DSB0} + {DSB1} + {DSB2};
    WroteLater(log2, log5, saved, bridges, {NHI});
    log' := WasGot(log5, saved, 5, NH10, Saved(saved, NH10), seen);
    WroteStays(log5, log', saved, bridges + {NHI});
    assert bridges + {NHI} == {RP, UPSB, DSB0, DSB1, DSB2, NHI};
  }

  /**
    For any saved names and any answer `seen` of the inner reads there is a complete trace that
    passes all six stages, so that CNHI returns One, and after which the first two bus numbers of
    the upstream port are what `seen` says, on hardware that accepted every write.
   */
  lemma SuccessLosesBusNumbers(mem: seq<Byte>, at: Layout, saved: Names, seen: Dword) returns (log: seq<Access>)
    requires at.Fits(|mem|)
    ensures FollowsPlan(log, saved) && Complete(log, saved) && Passed(log, saved, 5)
    ensures var mem' := Replay(mem, at, log);
            Holds(mem', at, Reg(UPSB, PRIMARY), seen[0]) && Holds(mem', at, UP19, seen[1])
  {
    hide Wrote, Complete, Passed, Entered, Holds, Replay, Tidy;
    log := FirstStages(saved, seen);
    log := LastStages(log, saved, seen);
    WroteAll(log, saved);
    PassedNow(log, saved);
    assert Put(Reg(UPSB, SUBORDINATE), Plan(saved, Reg(UPSB, SUBORDINATE))) in log by {
      CompleteHas(log, saved, Reg(UPSB, SUBORDINATE));
    }
    StoredIsLast(log, Reg(UPSB, SUBORDINATE), Plan(saved, Reg(UPSB, SUBORDINATE)));
    BusNumbersAreTold(mem, at, log, saved, UPSB);
  }

  lemma PassedNow(log: seq<Access>, saved: Names)
    requires StageOk(log, saved, 5) && GatePassed(log, saved, 5)
    ensures Passed(log, saved, 5)
  {
  }

  lemma CompleteHas(log: seq<Access>, saved: Names, r: Reg)
    requires Complete(log, saved) && Planned(r)
    ensures Put(r, Plan(saved, r)) in log
  {
  }
}
