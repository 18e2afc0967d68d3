/**
  The mailbox of the Thunderbolt controller: `CIOR`, `CIOW` and the retrying, verifying
  read-modify-write `CRMW`, over hardware that may do anything.

  The hardware is an adaptive adversary: a function of all that has happened. A write that was
  handed over may land at once, later, more than once or never. A command that the code has given
  up on may finish later and clear PROG under a command that is still running; if it was a write,
  it leaves RDAT as it is. Only what a read command that finishes without a timeout puts into RDAT
  is what its register holds.
 */
module CioMailbox {

  // ---------------------------------------------------------------- bits

  /** The contents of a 32-bit register, as the ASL integer that reading it gives. */
  type Reg32 = x: bv64 | x & 0xFFFF_FFFF == x

  /** Storing an ASL integer into a 32-bit field keeps its low half. */
  function Low(x: bv64): Reg32 {
    x & 0xFFFF_FFFF
  }

  /** The comparison at the end of an attempt. */
  predicate Verified(v: Reg32, bits: bv64, mask: bv64) {
    v & mask == bits
  }

  /** `bits` lies inside `mask` and inside the 32-bit register. */
  predicate WellFormed(bits: bv64, mask: bv64) {
    bits & !mask == 0 && bits & 0xFFFF_FFFF == bits
  }

  /** Clear the bits of `mask`, then set `bits`. */
  function Merge(v: Reg32, bits: bv64, mask: bv64): bv64 {
    (v & !mask) | bits
  }

  /** What `CRMW` writes after it has read `v`. */
  function Merged(v: Reg32, bits: bv64, mask: bv64): Reg32 {
    Low(Merge(v, bits, mask))
  }

  lemma MergedIsIdempotent(v: Reg32, bits: bv64, mask: bv64)
    ensures Merged(Merged(v, bits, mask), bits, mask) == Merged(v, bits, mask)
  {
  }

  lemma MaskParts(v: bv64, mask: bv64)
    ensures (v & !mask) | (v & mask) == v
    ensures (v & mask) & !mask == 0
  {
  }

  lemma MaskOfLow(v: bv64, mask: bv64)
    ensures v & 0xFFFF_FFFF == v ==> (v & mask) & 0xFFFF_FFFF == v & mask
  {
  }

  lemma VerifiedIsWellFormed(v: Reg32, bits: bv64, mask: bv64)
    requires v & mask == bits
    ensures bits & !mask == 0
    ensures bits & 0xFFFF_FFFF == bits
  {
    MaskParts(v, mask);
    MaskOfLow(v, mask);
  }

  lemma VerifiedIsMerged(v: Reg32, bits: bv64, mask: bv64)
    requires v & mask == bits
    ensures Merged(v, bits, mask) == v
  {
    MaskParts(v, mask);
  }

  /** The comparison can only ever succeed for well-formed arguments, and then it means "already merged". */
  lemma VerifiedMeansMerged(v: Reg32, bits: bv64, mask: bv64)
    ensures Verified(v, bits, mask) <==> WellFormed(bits, mask) && Merged(v, bits, mask) == v
  {
    if Verified(v, bits, mask) {
      VerifiedIsWellFormed(v, bits, mask);
      VerifiedIsMerged(v, bits, mask);
    } else if WellFormed(bits, mask) {
      MergedBits(v, bits, mask);
    }
  }

  /** Bits outside the mask survive; bits inside it become `bits`. */
  lemma MergedBits(v: Reg32, bits: bv64, mask: bv64)
    requires WellFormed(bits, mask)
    ensures Merged(v, bits, mask) & !mask == v & !mask
    ensures Merged(v, bits, mask) & mask == bits
  {
  }

  /** A merged value passes the comparison exactly when the arguments are well formed. */
  lemma MergedVerifies(v: Reg32, bits: bv64, mask: bv64)
    ensures Verified(Merged(v, bits, mask), bits, mask) <==> WellFormed(bits, mask)
  {
    VerifiedMeansMerged(Merged(v, bits, mask), bits, mask);
    MergedIsIdempotent(v, bits, mask);
  }

  /** A register of zero compares equal to no bits only. */
  lemma ZeroVerifies(bits: bv64, mask: bv64)
    ensures Verified(0, bits, mask) <==> bits == 0
  {
  }

  // ---------------------------------------------------------------- the registers behind the mailbox

  /** A register behind the mailbox. */
  datatype Cell = Cell(index: bv64, port: bv64, space: bv64)

  /** The cell that the fields DWIX (13 bits), PORT (6 bits) and SPCE (2 bits) select. */
  function Target(arg0: bv64, arg1: bv64, arg2: bv64): Cell {
    Cell(arg0 & 0x1FFF, arg1 & 0x3F, arg2 & 3)
  }

  /** Arguments that fit their fields select just that register. */
  lemma TargetOfSmall(arg0: bv64, arg1: bv64, arg2: bv64)
    ensures arg0 < 0x2000 && arg1 < 0x40 && arg2 < 4 ==> Target(arg0, arg1, arg2) == Cell(arg0, arg1, arg2)
  {
  }

  /** A write that the hardware has latched. */
  datatype Latched = Latched(cell: Cell, value: Reg32)

  /** The registers, and the writes handed over that may still land. */
  datatype Device = Device(regs: map<Cell, Reg32>, inFlight: set<Latched>) {
    function Reg(c: Cell): Reg32 {
      if c in regs then regs[c] else 0
    }

    /** The cell holds `v`, or a write of `v` to it is in flight. */
    predicate MayHold(c: Cell, v: Reg32) {
      Reg(c) == v || Latched(c, v) in inFlight
    }

    function Land(w: Latched): Device {
      this.(regs := regs[w.cell := w.value])
    }

    function Handed(w: Latched): Device {
      this.(inFlight := inFlight + {w})
    }
  }

  // ---------------------------------------------------------------- the mailbox and its hardware

  datatype Command = Read(cell: Cell) | Write(cell: Cell, value: Reg32)

  /** A command with its status, and what a read returned. */
  datatype Transaction = Transaction(command: Command, failed: bool, value: Reg32)

  /**
    What the code and the hardware share: the registers, the commands that are not finished, RDAT,
    PROG and TMOT. The rest records what has happened: every device state so far, how often the
    code has waited, polled and issued a command, how often it gave up on a command because the
    polls ran out, how often it issued a read while an earlier command was not finished, and the
    transactions that it has made.
   */
  datatype Mail = Mail(dev: Device, open: seq<Command>, rdat: Reg32, prog: bool, tmot: bool,
                       ticks: nat, polls: nat, issued: nat, givenUp: nat, overruns: nat, trail: seq<Device>,
                       record: seq<Transaction>)

  /** What the hardware may do by itself; a move that is not possible changes nothing. */
  datatype Move =
    | Land(w: Latched)                   // a write in flight reaches its register
    | Drop(w: Latched)                   // a write in flight is gone
    | Finish(i: nat, timeout: bool)      // an unfinished command ends, with or without a timeout

  type Hardware = Mail -> seq<Move>

  function Seen(m: Mail, d: Device): Mail {
    m.(dev := d, trail := m.trail + [d])
  }

  function Do(m: Mail, move: Move): Mail {
    match move
    case Land(w) => if w in m.dev.inFlight then Seen(m, m.dev.Land(w)) else m
    case Drop(w) => Seen(m, m.dev.(inFlight := m.dev.inFlight - {w}))
    case Finish(i, timeout) =>
      if i >= |m.open| then m
      else
        var told := if m.open[i].Read? && !timeout then m.dev.Reg(m.open[i].cell) else m.rdat;
        m.(open := m.open[..i] + m.open[i + 1..], prog := false, tmot := timeout, rdat := told)
  }

  function DoAll(m: Mail, moves: seq<Move>): Mail
    decreases |moves|
  {
    if moves == [] then m else DoAll(Do(m, moves[0]), moves[1..])
  }

  /** Time passes for the hardware. */
  function Tick(hw: Hardware, m: Mail): Mail {
    DoAll(m.(ticks := m.ticks + 1), hw(m))
  }

  // ---------------------------------------------------------------- what the code does

  const POLLS: nat := 0x2710

  datatype Reply = Reply(mail: Mail, failed: bool, value: Reg32)

  datatype Outcome = Outcome(mail: Mail, verified: bool)

  /** PROG = One: the command is handed over; a write is latched and may land from now on. */
  function Start(m: Mail, command: Command): Mail {
    var d := if command.Write? then m.dev.Handed(Latched(command.cell, command.value)) else m.dev;
    Seen(m.(open := m.open + [command], prog := true, tmot := false, issued := m.issued + 1), d)
  }

  function Poll(hw: Hardware, m: Mail): Mail {
    var m' := Tick(hw, m);
    m'.(polls := m'.polls + 1)
  }

  /** The polling loop, `n` more times; failed unless PROG was seen clear. */
  function Await(hw: Hardware, m: Mail, n: nat): Reply
    decreases n
  {
    if n == 0 then Reply(m.(givenUp := m.givenUp + 1), true, 0)
    else
      var m' := Poll(hw, m);
      if !m'.prog then Reply(m', false, 0) else Await(hw, m', n - 1)
  }

  /** One command, to its end or until the polls run out; then TMOT. */
  function Issue(hw: Hardware, m: Mail, command: Command): Reply {
    var r := Await(hw, Start(m, command), POLLS);
    if r.failed then r
    else
      var m' := Tick(hw, r.mail);
      Reply(m', m'.tmot, 0)
  }

  /** RDAT is cleared; that a command is still unfinished is noted down. */
  function BeginRead(m: Mail): Mail {
    m.(rdat := 0, overruns := m.overruns + if m.open != [] then 1 else 0)
  }

  function Recording(m: Mail, t: Transaction): Mail {
    m.(record := m.record + [t])
  }

  /** CIOR: RDAT is cleared first and read last. */
  function ReadCell(hw: Hardware, m: Mail, c: Cell): Reply {
    var r := Issue(hw, BeginRead(m), Read(c));
    var m' := Tick(hw, r.mail);
    Reply(Recording(Tick(hw, m'), Transaction(Read(c), r.failed, m'.rdat)), r.failed, m'.rdat)
  }

  /** CIOW. */
  function WriteCell(hw: Hardware, m: Mail, c: Cell, value: bv64): Reply {
    var r := Issue(hw, m, Write(c, Low(value)));
    r.(mail := Recording(r.mail, Transaction(Write(c, Low(value)), r.failed, 0)))
  }

  /** One attempt of CRMW. */
  function Attempt(hw: Hardware, m: Mail, c: Cell, bits: bv64, mask: bv64): Outcome {
    var r := ReadCell(hw, m, c);
    if r.failed then Outcome(r.mail, false)
    else
      var w := WriteCell(hw, r.mail, c, Merge(r.value, bits, mask));
      if w.failed then Outcome(w.mail, false)
      else
        var r' := ReadCell(hw, w.mail, c);
        Outcome(r'.mail, !r'.failed && Verified(r'.value, bits, mask))
  }

  /** Up to `n` attempts, with a pause after each that fails. */
  function Attempts(hw: Hardware, m: Mail, c: Cell, bits: bv64, mask: bv64, n: nat): Outcome
    decreases n
  {
    if n == 0 then Outcome(m, false)
    else
      var o := Attempt(hw, m, c, bits, mask);
      if o.verified then o else Attempts(hw, Tick(hw, o.mail), c, bits, mask, n - 1)
  }

  const ATTEMPTS: nat := 5

  function Modify(hw: Hardware, m: Mail, c: Cell, bits: bv64, mask: bv64): Outcome {
    Attempts(hw, m, c, bits, mask, ATTEMPTS)
  }

  // ---------------------------------------------------------------- the code

  class Mailbox {
    // The register window H530, as the code sees it.
    var WDAT: Reg32
    var RDAT: Reg32
    var selected: Cell   // DWIX, PORT and SPCE
    var CMD0: bool       // set for a write
    var PROG: bool
    var TMOT: bool

    const hardware: Hardware
    const presence: Mail -> bv64   // what AVND of the upstream port reads as; all ones if it does not answer
    var dev: Device
    var open: seq<Command>

    // Instrumentation.
    var ticks: nat
    var polls: nat
    var issued: nat
    var givenUp: nat
    var overruns: nat
    var trail: seq<Device>
    var record: seq<Transaction>

    function State(): Mail
      reads this
    {
      Mail(dev, open, RDAT, PROG, TMOT, ticks, polls, issued, givenUp, overruns, trail, record)
    }

    constructor (dev: Device, hardware: Hardware, presence: Mail -> bv64)
      ensures this.hardware == hardware && this.presence == presence && State() == Idle(dev)
    {
      this.dev, this.hardware, this.presence := dev, hardware, presence;
      WDAT, RDAT, selected, CMD0, PROG, TMOT := 0, 0, Cell(0, 0, 0), false, false, false;
      open, ticks, polls, issued, givenUp, overruns, trail := [], 0, 0, 0, 0, 0, [dev];
      record := [];
    }

    /** The hardware moves. */
    method Run()
      modifies this`dev, this`open, this`RDAT, this`PROG, this`TMOT, this`ticks, this`trail
      ensures State() == Tick(hardware, old(State()))
    {
      var moves := hardware(State());
      ticks := ticks + 1;
      while moves != []
        invariant DoAll(State(), moves) == Tick(hardware, old(State()))
        decreases |moves|
      {
        Make(moves[0]);
        moves := moves[1..];
      }
    }

    method Make(move: Move)
      modifies this`dev, this`open, this`RDAT, this`PROG, this`TMOT, this`trail
      ensures State() == Do(old(State()), move)
    {
      match move
      case Land(w) =>
        if w in dev.inFlight {
          dev := dev.Land(w);
          trail := trail + [dev];
        }
      case Drop(w) =>
        dev := dev.(inFlight := dev.inFlight - {w});
        trail := trail + [dev];
      case Finish(i, timeout) =>
        if i < |open| {
          if open[i].Read? && !timeout { RDAT := dev.Reg(open[i].cell); }
          open := open[..i] + open[i + 1..];
          PROG, TMOT := false, timeout;
        }
    }

    /** TMOT = Zero and PROG = One. */
    method HandOver()
      modifies this`dev, this`open, this`PROG, this`TMOT, this`issued, this`trail
      ensures State() == Start(old(State()), if CMD0 then Write(selected, WDAT) else Read(selected))
    {
      TMOT := false;
      PROG := true;
      issued := issued + 1;
      if CMD0 {
        dev := dev.Handed(Latched(selected, WDAT));
        open := open + [Write(selected, WDAT)];
      } else {
        open := open + [Read(selected)];
      }
      trail := trail + [dev];
    }

    method ReadPROG() returns (busy: bool)
      modifies this`dev, this`open, this`RDAT, this`PROG, this`TMOT, this`ticks, this`trail, this`polls
      ensures State() == Poll(hardware, old(State())) && busy == PROG
    {
      Run();
      polls := polls + 1;
      busy := PROG;
    }

    /** The polling loop of CIOW and CIOR, and TMOT if PROG was seen clear. */
    method Finished() returns (failed: bool)
      modifies this`dev, this`open, this`RDAT, this`PROG, this`TMOT, this`ticks, this`trail, this`polls, this`givenUp
      ensures var r := Await(hardware, old(State()), POLLS);
              if r.failed then failed && State() == r.mail
              else State() == Tick(hardware, r.mail) && failed == TMOT
    {
      hide Poll, Tick;
      failed := true;
      var local0 := POLLS;
      while 0 < local0
        invariant 0 <= local0 <= POLLS && failed
        invariant Await(hardware, old(State()), POLLS) == Await(hardware, State(), local0)
      {
        var busy := ReadPROG();
        if !busy {
          failed := false;
          break;
        }
        local0 := local0 - 1;
      }
      if failed {
        givenUp := givenUp + 1;
      } else {
        Run();
        failed := TMOT;
      }
    }

    /** What CIOW and CIOR have in common: hand the command over and wait for its end. */
    method Transact() returns (failed: bool)
      modifies this`dev, this`open, this`RDAT, this`PROG, this`TMOT, this`ticks, this`trail, this`polls
      modifies this`issued, this`givenUp
      ensures var r := Issue(hardware, old(State()), if CMD0 then Write(selected, WDAT) else Read(selected));
              State() == r.mail && failed == r.failed
    {
      hide Await, Tick, Start;
      HandOver();
      failed := Finished();
    }

    /**
      CIOW: false (Zero) when the write was acknowledged without a timeout. Whatever the answer,
      nothing but this write and those that were in flight can have landed.
     */
    method CIOW(arg0: bv64, arg1: bv64, arg2: bv64, arg3: bv64) returns (failed: bool)
      modifies this
      ensures var r := WriteCell(hardware, old(State()), Target(arg0, arg1, arg2), arg3);
              State() == r.mail && failed == r.failed
      ensures issued == old(issued) + 1 && polls <= old(polls) + 10_000
      ensures record == old(record) + [Transaction(Write(Target(arg0, arg1, arg2), Low(arg3)), failed, 0)]
      ensures failed <==> givenUp > old(givenUp) || TMOT
      ensures givenUp > old(givenUp) ==> polls == old(polls) + 10_000
      ensures old(Recorded(State())) ==>
                forall d, e :: Passed(old(State()), State(), d) ==>
                  old(dev).MayHold(e, d.Reg(e)) || (e == Target(arg0, arg1, arg2) && d.Reg(e) == Low(arg3))
    {
      hide Issue, Low, Target, Passed, Recorded;
      var command := Write(Target(arg0, arg1, arg2), Low(arg3));
      ghost var m := State();
      WriteCounts(hardware, m, command.cell, arg3);
      if Recorded(m) { WriteIsConfined(hardware, m, command.cell, arg3); }
      WDAT := Low(arg3);
      selected := Target(arg0, arg1, arg2);
      CMD0 := true;
      failed := Transact();
      record := record + [Transaction(command, failed, 0)];
    }

    /**
      CIOR: a status, and RDAT whatever the status. It writes nothing. If no command was
      unfinished before it, what it returns with success is what the register held meanwhile.
     */
    method CIOR(arg0: bv64, arg1: bv64, arg2: bv64) returns (failed: bool, value: Reg32)
      modifies this
      ensures Reply(State(), failed, value) == ReadCell(hardware, old(State()), Target(arg0, arg1, arg2))
      ensures issued == old(issued) + 1 && polls <= old(polls) + 10_000
      ensures record == old(record) + [Transaction(Read(Target(arg0, arg1, arg2)), failed, value)]
      ensures givenUp > old(givenUp) ==> failed && polls == old(polls) + 10_000
      ensures old(Recorded(State())) ==>
                forall d, e :: Passed(old(State()), State(), d) ==> old(dev).MayHold(e, d.Reg(e))
      ensures old(Recorded(State()) && open == []) && !failed ==>
                Held(State(), Target(arg0, arg1, arg2), |old(trail)| - 1, value)
    {
      hide Passed, Recorded, Held, ReadCell, Target;
      ghost var c, m := Target(arg0, arg1, arg2), State();
      ReadCounts(hardware, m, c);
      if Recorded(m) { ReadIsConfined(hardware, m, c); }
      selected := Target(arg0, arg1, arg2);
      failed, value := Receive();
    }

    method ClearRDAT()
      modifies this`RDAT, this`overruns
      ensures State() == BeginRead(old(State()))
    {
      RDAT := 0;
      if open != [] { overruns := overruns + 1; }
    }

    /** The read of CIOR. */
    method Receive() returns (failed: bool, value: Reg32)
      modifies this
      ensures Reply(State(), failed, value) == ReadCell(hardware, old(State()), old(selected))
    {
      hide Issue, Tick, BeginRead;
      ClearRDAT();
      CMD0 := false;
      failed := Transact();
      Run();
      value := RDAT;
      Run();
      record := record + [Transaction(Read(selected), failed, value)];
    }

    /** AVND of the upstream port. */
    method ReadAVND() returns (id: bv64)
      ensures id == presence(State())
    {
      id := presence(State());
    }

    method TryOnce(arg0: bv64, arg1: bv64, arg2: bv64, arg3: bv64, arg4: bv64) returns (verified: bool)
      modifies this
      ensures Outcome(State(), verified) == Attempt(hardware, old(State()), Target(arg0, arg1, arg2), arg3, arg4)
    {
      hide ReadCell, WriteCell, Merge, Verified, Target;
      verified := false;
      var failed, value := CIOR(arg0, arg1, arg2);
      if !failed {
        failed := CIOW(arg0, arg1, arg2, Merge(value, arg3, arg4));
        if !failed {
          failed, value := CIOR(arg0, arg1, arg2);
          if !failed {
            if Verified(value, arg3, arg4) { verified := true; }
          }
        }
      }
    }

    /**
      CRMW: read, merge, write, read back, up to five times. Zero means that the bits lie inside the
      mask, and that the register compared equal: with bits to set, at some moment of the call; and
      if no read of the call was overrun, for good.

      Nothing is done if the controller does not answer. Otherwise One means five attempts by the
      record of the transactions, each of which failed at a command or at the comparison; Zero
      that one of the first five succeeded, and those before it failed.
     */
    method CRMW(arg0: bv64, arg1: bv64, arg2: bv64, arg3: bv64, arg4: bv64) returns (local1: bv64)
      modifies this
      ensures local1 in {0, 1}
      ensures old(presence(State())) == 0xFFFF_FFFF ==> local1 == 1 && State() == old(State())
      ensures old(presence(State())) != 0xFFFF_FFFF ==>
                var c := Target(arg0, arg1, arg2);
                && old(record) <= record
                && var made := record[|old(record)|..];
                   if local1 == 1 then FailedTries(made, c, arg3, arg4, 5) else LastTryWorks(made, c, arg3, arg4, 5)
      ensures old(presence(State())) != 0xFFFF_FFFF ==>
                var o := Modify(hardware, old(State()), Target(arg0, arg1, arg2), arg3, arg4);
                State() == o.mail && local1 == if o.verified then 0 else 1
      ensures issued <= old(issued) + 15 && polls <= old(polls) + 150_000
      ensures old(Recorded(State()) && presence(State()) != 0xFFFF_FFFF) ==>
                forall d :: Passed(old(State()), State(), d) ==>
                  OnlyMerges(old(dev), d, Target(arg0, arg1, arg2), arg3, arg4)
      ensures local1 == 0 && arg3 != 0 && old(Settled(State(), Target(arg0, arg1, arg2))) ==>
                WasVerified(State(), Target(arg0, arg1, arg2), |old(trail)| - 1, arg3, arg4)
      ensures local1 == 0 ==> WellFormed(arg3, arg4)
      ensures var c := Target(arg0, arg1, arg2);
              local1 == 0 && old(Settled(State(), c) && ZeroIsHarmless(dev.Reg(c), arg3, arg4)) ==>
                dev.Reg(c) == Merged(old(dev).Reg(c), arg3, arg4)
      ensures local1 == 0 && overruns == old(overruns) && old(Settled(State(), Target(arg0, arg1, arg2))) ==>
                var c := Target(arg0, arg1, arg2);
                forall moves :: DoAll(State(), moves).dev.Reg(c) == Merged(old(dev).Reg(c), arg3, arg4)
    {
      hide Attempt, Tick, Target, Passed, OnlyMerges, Settled, Recorded, WasVerified, DoAll, Merged;
      hide WellFormed, ZeroIsHarmless;
      ghost var c, m := Target(arg0, arg1, arg2), State();
      ModifyHolds(hardware, m, c, arg3, arg4);
      ModifyRecord(hardware, m, c, arg3, arg4);
      hide FailedTries, LastTryWorks;
      local1 := 1;
      var id := ReadAVND();
      if id != 0xFFFF_FFFF {
        var local3 := 0;
        while local3 <= 4
          invariant 0 <= local3 <= 5 && local1 == 1
          invariant Modify(hardware, old(State()), c, arg3, arg4)
                    == Attempts(hardware, State(), c, arg3, arg4, 5 - local3)
          decreases 5 - local3
        {
          var verified := TryOnce(arg0, arg1, arg2, arg3, arg4);
          if verified {
            local1 := 0;
            break;
          }
          local3 := local3 + 1;
          Run();
        }
      }
    }
  }

  /** A mailbox with nothing going on. */
  function Idle(dev: Device): Mail {
    Mail(dev, [], 0, false, false, 0, 0, 0, 0, 0, [dev], [])
  }

  // ---------------------------------------------------------------- bounds

  lemma {:induction false} DoAllCounts(m: Mail, moves: seq<Move>)
    ensures var m' := DoAll(m, moves);
            m'.polls == m.polls && m'.issued == m.issued && m'.overruns == m.overruns && m'.givenUp == m.givenUp
            && m'.record == m.record
    decreases |moves|
  {
    if moves != [] { DoAllCounts(Do(m, moves[0]), moves[1..]); }
  }

  lemma TickCounts(hw: Hardware, m: Mail)
    ensures var m' := Tick(hw, m);
            m'.polls == m.polls && m'.issued == m.issued && m'.overruns == m.overruns && m'.givenUp == m.givenUp
            && m'.record == m.record
  {
    DoAllCounts(m.(ticks := m.ticks + 1), hw(m));
  }

  lemma {:induction false} AwaitCounts(hw: Hardware, m: Mail, n: nat)
    ensures var m' := Await(hw, m, n).mail;
            && m'.polls <= m.polls + n && m'.issued == m.issued && m'.overruns == m.overruns
            && m'.record == m.record
            && if Await(hw, m, n).failed then m'.givenUp == m.givenUp + 1 && m'.polls == m.polls + n
               else m'.givenUp == m.givenUp
    decreases n
  {
    if n > 0 {
      TickCounts(hw, m);
      AwaitCounts(hw, Poll(hw, m), n - 1);
    }
  }

  lemma IssueCounts(hw: Hardware, m: Mail, command: Command)
    ensures var m' := Issue(hw, m, command).mail;
            && m'.polls <= m.polls + POLLS && m'.issued == m.issued + 1 && m'.overruns == m.overruns
            && m'.record == m.record && m.givenUp <= m'.givenUp <= m.givenUp + 1
            && (m'.givenUp > m.givenUp ==> Issue(hw, m, command).failed && m'.polls == m.polls + POLLS)
            && (Issue(hw, m, command).failed <==> m'.givenUp > m.givenUp || m'.tmot)
  {
    hide Await, Tick;
    AwaitCounts(hw, Start(m, command), POLLS);
    TickCounts(hw, Await(hw, Start(m, command), POLLS).mail);
  }

  lemma ReadCounts(hw: Hardware, m: Mail, c: Cell)
    ensures var m' := ReadCell(hw, m, c).mail;
            && m'.polls <= m.polls + POLLS && m'.issued == m.issued + 1
            && m'.overruns == m.overruns + (if m.open != [] then 1 else 0)
            && m.givenUp <= m'.givenUp <= m.givenUp + 1
            && (m'.givenUp > m.givenUp ==> ReadCell(hw, m, c).failed && m'.polls == m.polls + POLLS)
            && m'.record == m.record + [Transaction(Read(c), ReadCell(hw, m, c).failed, ReadCell(hw, m, c).value)]
  {
    hide Issue, Tick;
    var r := Issue(hw, BeginRead(m), Read(c));
    IssueCounts(hw, BeginRead(m), Read(c));
    TickCounts(hw, r.mail);
    TickCounts(hw, Tick(hw, r.mail));
  }

  lemma WriteCounts(hw: Hardware, m: Mail, c: Cell, value: bv64)
    ensures var w := WriteCell(hw, m, c, value);
            && w.mail.record == m.record + [Transaction(Write(c, Low(value)), w.failed, 0)]
            && w.mail.polls <= m.polls + POLLS && w.mail.issued == m.issued + 1 && w.mail.overruns == m.overruns
            && m.givenUp <= w.mail.givenUp <= m.givenUp + 1
            && (w.mail.givenUp > m.givenUp ==> w.failed && w.mail.polls == m.polls + POLLS)
            && (w.failed <==> w.mail.givenUp > m.givenUp || w.mail.tmot)
  {
    hide Issue, Low;
    IssueCounts(hw, m, Write(c, Low(value)));
  }

  lemma AttemptCounts(hw: Hardware, m: Mail, c: Cell, bits: bv64, mask: bv64)
    ensures var m' := Attempt(hw, m, c, bits, mask).mail;
            && m'.polls <= m.polls + 3 * POLLS && m'.issued <= m.issued + 3
            && m.overruns <= m'.overruns && m.givenUp <= m'.givenUp
  {
    hide Issue, ReadCell, Merge, Verified;
    var r := ReadCell(hw, m, c);
    ReadCounts(hw, m, c);
    if !r.failed {
      var w := WriteCell(hw, r.mail, c, Merge(r.value, bits, mask));
      IssueCounts(hw, r.mail, Write(c, Low(Merge(r.value, bits, mask))));
      ReadCounts(hw, w.mail, c);
    }
  }

  lemma {:induction false} AttemptsCounts(hw: Hardware, m: Mail, c: Cell, bits: bv64, mask: bv64, n: nat)
    ensures var m' := Attempts(hw, m, c, bits, mask, n).mail;
            && m'.polls <= m.polls + 30_000 * n && m'.issued <= m.issued + 3 * n
            && m.overruns <= m'.overruns && m.givenUp <= m'.givenUp
    decreases n
  {
    hide Attempt, Tick;
    if n > 0 {
      var o := Attempt(hw, m, c, bits, mask);
      AttemptCounts(hw, m, c, bits, mask);
      if !o.verified {
        TickCounts(hw, o.mail);
        var r := Attempts(hw, Tick(hw, o.mail), c, bits, mask, n - 1);
        AttemptsCounts(hw, Tick(hw, o.mail), c, bits, mask, n - 1);
        assert Attempts(hw, m, c, bits, mask, n) == r;
      }
    }
  }

  /** Whatever the hardware does: at most 15 transactions and 150,000 polls. */
  lemma ModifyIsBounded(hw: Hardware, m: Mail, c: Cell, bits: bv64, mask: bv64)
    ensures var m' := Modify(hw, m, c, bits, mask).mail;
            m'.issued <= m.issued + 15 && m'.polls <= m.polls + 150_000
  {
    AttemptsCounts(hw, m, c, bits, mask, ATTEMPTS);
  }

  // ---------------------------------------------------------------- what the transactions of a call are

  /** The transactions of one attempt: read, write the merged value, read back; it ends at the first that fails. */
  predicate IsTry(tr: seq<Transaction>, c: Cell, bits: bv64, mask: bv64, ok: bool) {
    && 1 <= |tr| <= 3 && tr[0].command == Read(c)
    && if tr[0].failed then |tr| == 1 && !ok
       else
         && |tr| >= 2 && tr[1].command == Write(c, Merged(tr[0].value, bits, mask))
         && if tr[1].failed then |tr| == 2 && !ok
            else
              && |tr| == 3 && tr[2].command == Read(c)
              && (ok <==> !tr[2].failed && tr[2].value & mask == bits)
  }

  /** `n` attempts, all failed. */
  ghost predicate FailedTries(tr: seq<Transaction>, c: Cell, bits: bv64, mask: bv64, n: nat) {
    if n == 0 then tr == []
    else exists k :: 0 <= k <= |tr| && IsTry(tr[..k], c, bits, mask, false) && FailedTries(tr[k..], c, bits, mask, n - 1)
  }

  /** At most `n` attempts, all failed but the last, which succeeded. */
  ghost predicate LastTryWorks(tr: seq<Transaction>, c: Cell, bits: bv64, mask: bv64, n: nat) {
    && n > 0
    && (IsTry(tr, c, bits, mask, true)
        || exists k :: 0 <= k <= |tr| && IsTry(tr[..k], c, bits, mask, false)
                       && LastTryWorks(tr[k..], c, bits, mask, n - 1))
  }

  lemma FirstFailed(t1: Transaction, c: Cell, bits: bv64, mask: bv64)
    requires t1.command == Read(c) && t1.failed
    ensures IsTry([t1], c, bits, mask, false)
  {
  }

  lemma SecondFailed(t1: Transaction, t2: Transaction, c: Cell, bits: bv64, mask: bv64)
    requires t1.command == Read(c) && !t1.failed && t2.failed
    requires t2.command == Write(c, Low(Merge(t1.value, bits, mask)))
    ensures IsTry([t1, t2], c, bits, mask, false)
  {
  }

  lemma AllThree(t1: Transaction, t2: Transaction, t3: Transaction, c: Cell, bits: bv64, mask: bv64)
    requires t1.command == Read(c) && !t1.failed && !t2.failed && t3.command == Read(c)
    requires t2.command == Write(c, Low(Merge(t1.value, bits, mask)))
    ensures IsTry([t1, t2, t3], c, bits, mask, !t3.failed && Verified(t3.value, bits, mask))
  {
    hide Merge, Low;
  }

  lemma AttemptRecord(hw: Hardware, m: Mail, c: Cell, bits: bv64, mask: bv64)
    ensures var o := Attempt(hw, m, c, bits, mask);
            && m.record <= o.mail.record
            && IsTry(o.mail.record[|m.record|..], c, bits, mask, o.verified)
  {
    hide ReadCell, WriteCell, Merge, Low, IsTry, Verified;
    var r := ReadCell(hw, m, c);
    ReadCounts(hw, m, c);
    var t1 := Transaction(Read(c), r.failed, r.value);
    if r.failed {
      assert r.mail.record[|m.record|..] == [t1];
      FirstFailed(t1, c, bits, mask);
    } else {
      var v := Merge(r.value, bits, mask);
      var w := WriteCell(hw, r.mail, c, v);
      WriteCounts(hw, r.mail, c, v);
      var t2 := Transaction(Write(c, Low(v)), w.failed, 0);
      if w.failed {
        assert w.mail.record[|m.record|..] == [t1, t2];
        SecondFailed(t1, t2, c, bits, mask);
      } else {
        var r' := ReadCell(hw, w.mail, c);
        ReadCounts(hw, w.mail, c);
        var t3 := Transaction(Read(c), r'.failed, r'.value);
        assert r'.mail.record[|m.record|..] == [t1, t2, t3];
        AllThree(t1, t2, t3, c, bits, mask);
      }
    }
  }

  lemma {:induction false} AttemptsRecord(hw: Hardware, m: Mail, c: Cell, bits: bv64, mask: bv64, n: nat)
    ensures var o := Attempts(hw, m, c, bits, mask, n);
            && m.record <= o.mail.record
            && var made := o.mail.record[|m.record|..];
               if o.verified then LastTryWorks(made, c, bits, mask, n) else FailedTries(made, c, bits, mask, n)
    decreases n
  {
    hide Attempt, Tick, IsTry;
    if n > 0 {
      var o := Attempt(hw, m, c, bits, mask);
      AttemptRecord(hw, m, c, bits, mask);
      if !o.verified {
        var m' := Tick(hw, o.mail);
        TickCounts(hw, o.mail);
        AttemptsRecord(hw, m', c, bits, mask, n - 1);
        var o' := Attempts(hw, m', c, bits, mask, n - 1);
        assert Attempts(hw, m, c, bits, mask, n) == o';
        var made, k := o'.mail.record[|m.record|..], |o.mail.record| - |m.record|;
        assert made[..k] == o.mail.record[|m.record|..] && made[k..] == o'.mail.record[|m'.record|..];
      }
    }
  }

  lemma ModifyRecord(hw: Hardware, m: Mail, c: Cell, bits: bv64, mask: bv64)
    ensures var o := Modify(hw, m, c, bits, mask);
            && m.record <= o.mail.record
            && var made := o.mail.record[|m.record|..];
               if o.verified then LastTryWorks(made, c, bits, mask, 5) else FailedTries(made, c, bits, mask, 5)
  {
    AttemptsRecord(hw, m, c, bits, mask, ATTEMPTS);
  }

  // ---------------------------------------------------------------- where an overrun comes from

  /** The one command of the code is not finished and PROG is set, or nothing is open and PROG is clear. */
  predicate OneAtMost(m: Mail) {
    if m.prog then |m.open| == 1 else m.open == []
  }

  lemma {:induction false} DoAllOneAtMost(m: Mail, moves: seq<Move>)
    requires OneAtMost(m)
    ensures OneAtMost(DoAll(m, moves))
    decreases |moves|
  {
    if moves != [] { DoAllOneAtMost(Do(m, moves[0]), moves[1..]); }
  }

  lemma TickOneAtMost(hw: Hardware, m: Mail)
    requires OneAtMost(m)
    ensures OneAtMost(Tick(hw, m))
  {
    DoAllOneAtMost(m.(ticks := m.ticks + 1), hw(m));
  }

  lemma {:induction false} AwaitOneAtMost(hw: Hardware, m: Mail, n: nat)
    requires OneAtMost(m)
    ensures var r := Await(hw, m, n);
            && OneAtMost(r.mail) && m.givenUp <= r.mail.givenUp
            && if r.failed then r.mail.givenUp > m.givenUp else !r.mail.prog
    decreases n
  {
    hide Tick;
    if n > 0 {
      TickOneAtMost(hw, m);
      TickCounts(hw, m);
      AwaitOneAtMost(hw, Poll(hw, m), n - 1);
    }
  }

  /** A command that runs alone is finished at its end, unless the code gave up on it. */
  lemma IssueFinishes(hw: Hardware, m: Mail, command: Command)
    requires m.open == []
    ensures var m' := Issue(hw, m, command).mail;
            m'.givenUp > m.givenUp || (m'.open == [] && !m'.prog)
  {
    hide Await, Tick;
    var r := Await(hw, Start(m, command), POLLS);
    AwaitOneAtMost(hw, Start(m, command), POLLS);
    if !r.failed { TickEndsNothing(hw, r.mail); }
  }

  lemma ReadFinishes(hw: Hardware, m: Mail, c: Cell)
    requires m.open == []
    ensures var m' := ReadCell(hw, m, c).mail;
            m'.givenUp > m.givenUp || m'.open == []
  {
    hide Issue, Tick;
    var m0 := BeginRead(m);
    var r := Issue(hw, m0, Read(c));
    IssueFinishes(hw, m0, Read(c));
    TickCounts(hw, r.mail);
    TickCounts(hw, Tick(hw, r.mail));
    if r.mail.open == [] {
      TickEndsNothing(hw, r.mail);
      TickEndsNothing(hw, Tick(hw, r.mail));
    }
  }

  lemma AttemptFinishes(hw: Hardware, m: Mail, c: Cell, bits: bv64, mask: bv64)
    requires m.open == []
    ensures var m' := Attempt(hw, m, c, bits, mask).mail;
            m'.givenUp > m.givenUp || (m'.open == [] && m'.overruns == m.overruns)
  {
    hide Issue, ReadCell, Merge, Verified;
    var r := ReadCell(hw, m, c);
    ReadFinishes(hw, m, c);
    ReadCounts(hw, m, c);
    if !r.failed {
      var command := Write(c, Low(Merge(r.value, bits, mask)));
      var w := WriteCell(hw, r.mail, c, Merge(r.value, bits, mask));
      IssueCounts(hw, r.mail, command);
      ReadCounts(hw, w.mail, c);
      if r.mail.open == [] {
        IssueFinishes(hw, r.mail, command);
        if w.mail.open == [] { ReadFinishes(hw, w.mail, c); }
      }
    }
  }

  lemma {:induction false} AttemptsFinish(hw: Hardware, m: Mail, c: Cell, bits: bv64, mask: bv64, n: nat)
    requires m.open == []
    ensures var m' := Attempts(hw, m, c, bits, mask, n).mail;
            m'.givenUp > m.givenUp || (m'.open == [] && m'.overruns == m.overruns)
    decreases n
  {
    hide Attempt, Tick;
    if n > 0 {
      var o := Attempt(hw, m, c, bits, mask);
      var m' := Tick(hw, o.mail);
      AttemptFinishes(hw, m, c, bits, mask);
      AttemptCounts(hw, m, c, bits, mask);
      if !o.verified {
        TickCounts(hw, o.mail);
        AttemptsCounts(hw, m', c, bits, mask, n - 1);
        assert Attempts(hw, m, c, bits, mask, n) == Attempts(hw, m', c, bits, mask, n - 1);
        if o.mail.open == [] && o.mail.overruns == m.overruns {
          TickEndsNothing(hw, o.mail);
          AttemptsFinish(hw, m', c, bits, mask, n - 1);
        }
      }
    }
  }

  /** A call that begins with nothing open and never gives up on a command never overruns one. */
  lemma NoOverrunUnlessGaveUp(hw: Hardware, m: Mail, c: Cell, bits: bv64, mask: bv64)
    requires m.open == []
    ensures var m' := Modify(hw, m, c, bits, mask).mail;
            m'.givenUp == m.givenUp ==> m'.overruns == m.overruns
  {
    hide Attempts;
    AttemptsFinish(hw, m, c, bits, mask, ATTEMPTS);
  }

  // ---------------------------------------------------------------- what every moment keeps

  /**
    What the hardware can have done since `o` while only cell `c` is written: that cell holds a
    value of `vals`, the writes in flight to it are of `writes`, and all else is as `o` had it.
   */
  ghost predicate Confined(o: Device, d: Device, c: Cell, vals: iset<Reg32>, writes: iset<Reg32>) {
    && d.Reg(c) in vals
    && (forall w :: w in d.inFlight ==> if w.cell == c then w.value in writes else w in o.inFlight)
    && (forall e :: e != c ==> o.MayHold(e, d.Reg(e)))
  }

  /** At some moment from `from` on, the cell held `v`. */
  ghost predicate Held(m: Mail, c: Cell, from: nat, v: Reg32) {
    exists j :: from <= j < |m.trail| && m.trail[j].Reg(c) == v
  }

  /** The parts of `Keeps` that do not change: what is kept, and for which call. */
  datatype Frame =
    Frame(o: Device, c: Cell, vals: iset<Reg32>, writes: iset<Reg32>, from: nat, alien: bool, overruns: nat)

  /**
    Every moment from `f.from` on has been confined. RDAT is zero or something that the cell held,
    unless `f.alien`: a read of another cell may be unfinished.
   */
  ghost predicate Keeps(f: Frame, m: Mail) {
    && f.writes <= f.vals && f.overruns <= m.overruns
    && f.from < |m.trail| && m.trail[|m.trail| - 1] == m.dev
    && (forall i :: f.from <= i < |m.trail| ==> Confined(f.o, m.trail[i], f.c, f.vals, f.writes))
    && (f.alien || forall i :: 0 <= i < |m.open| && m.open[i].Read? ==> m.open[i].cell == f.c)
    && (f.alien || m.rdat == 0 || Held(m, f.c, f.from, m.rdat))
    && Sticks(f, m)
  }

  /** If only one value is ever written, the cell holds it for good once it has held it. */
  ghost predicate Sticks(f: Frame, m: Mail) {
    forall x :: (forall y :: y in f.writes ==> y == x) && Held(m, f.c, f.from, x) ==> m.dev.Reg(f.c) == x
  }

  lemma LandIsConfined(f: Frame, d: Device, w: Latched)
    requires f.writes <= f.vals && Confined(f.o, d, f.c, f.vals, f.writes) && w in d.inFlight
    ensures Confined(f.o, d.Land(w), f.c, f.vals, f.writes)
  {
    forall e | e != f.c
      ensures f.o.MayHold(e, d.Land(w).Reg(e))
    {
      assert f.o.MayHold(e, d.Reg(e));
      if e == w.cell { assert w == Latched(e, d.Land(w).Reg(e)); }
    }
  }

  lemma DropIsConfined(f: Frame, d: Device, w: Latched)
    requires Confined(f.o, d, f.c, f.vals, f.writes)
    ensures Confined(f.o, d.(inFlight := d.inFlight - {w}), f.c, f.vals, f.writes)
  {
    var d' := d.(inFlight := d.inFlight - {w});
    assert forall e :: d'.Reg(e) == d.Reg(e);
  }

  lemma HandedIsConfined(f: Frame, d: Device, v: Reg32)
    requires Confined(f.o, d, f.c, f.vals, f.writes) && v in f.writes
    ensures Confined(f.o, d.Handed(Latched(f.c, v)), f.c, f.vals, f.writes)
  {
    var d' := d.Handed(Latched(f.c, v));
    assert forall e :: d'.Reg(e) == d.Reg(e);
  }

  lemma SeenKeeps(f: Frame, m: Mail, d: Device)
    requires Keeps(f, m) && Confined(f.o, d, f.c, f.vals, f.writes)
    requires d.Reg(f.c) == m.dev.Reg(f.c) || d.Reg(f.c) in f.writes
    ensures Keeps(f, Seen(m, d))
    ensures forall v :: Held(m, f.c, f.from, v) ==> Held(Seen(m, d), f.c, f.from, v)
  {
    hide Confined;
    SeenSticks(f, m, d);
    forall v | Held(m, f.c, f.from, v)
      ensures Held(Seen(m, d), f.c, f.from, v)
    {
      HeldStays(m, d, f.c, f.from, v);
    }
  }

  lemma SeenSticks(f: Frame, m: Mail, d: Device)
    requires Sticks(f, m) && f.from <= |m.trail|
    requires d.Reg(f.c) == m.dev.Reg(f.c) || d.Reg(f.c) in f.writes
    ensures Sticks(f, Seen(m, d))
  {
    var m' := Seen(m, d);
    forall x | (forall y :: y in f.writes ==> y == x) && Held(m', f.c, f.from, x)
      ensures m'.dev.Reg(f.c) == x
    {
      var j :| f.from <= j < |m'.trail| && m'.trail[j].Reg(f.c) == x;
      if j < |m.trail| {
        assert m.trail[j].Reg(f.c) == x;
        assert Held(m, f.c, f.from, x);
      }
    }
  }

  /** The same trail and device. */
  lemma SticksOn(f: Frame, m: Mail, m': Mail)
    requires Sticks(f, m) && m'.trail == m.trail && m'.dev == m.dev
    ensures Sticks(f, m')
  {
    forall x | (forall y :: y in f.writes ==> y == x) && Held(m', f.c, f.from, x)
      ensures m'.dev.Reg(f.c) == x
    {
      var j :| f.from <= j < |m'.trail| && m'.trail[j].Reg(f.c) == x;
      assert m.trail[j].Reg(f.c) == x;
      assert Held(m, f.c, f.from, x);
    }
  }

  lemma HeldStays(m: Mail, d: Device, c: Cell, from: nat, v: Reg32)
    requires Held(m, c, from, v)
    ensures Held(Seen(m, d), c, from, v)
  {
    var j :| from <= j < |m.trail| && m.trail[j].Reg(c) == v;
    assert Seen(m, d).trail[j] == m.trail[j];
  }

  lemma DoKeeps(f: Frame, m: Mail, move: Move)
    requires Keeps(f, m)
    ensures Keeps(f, Do(m, move)) && m.trail <= Do(m, move).trail
  {
    match move {
      case Land(w) =>
        if w in m.dev.inFlight {
          LandIsConfined(f, m.dev, w);
          SeenKeeps(f, m, m.dev.Land(w));
        }
      case Drop(w) =>
        DropIsConfined(f, m.dev, w);
        SeenKeeps(f, m, m.dev.(inFlight := m.dev.inFlight - {w}));
      case Finish(i, timeout) => if i < |m.open| { FinishKeeps(f, m, i, timeout); }
    }
  }

  lemma FinishKeeps(f: Frame, m: Mail, i: nat, timeout: bool)
    requires Keeps(f, m) && i < |m.open|
    ensures Keeps(f, Do(m, Finish(i, timeout))) && Do(m, Finish(i, timeout)).trail == m.trail
  {
    hide Confined, Sticks;
    var m' := Do(m, Finish(i, timeout));
    SticksOn(f, m, m');
    assert forall k :: 0 <= k < |m'.open| ==> m'.open[k] == m.open[if k < i then k else k + 1];
    assert !f.alien && m.open[i].Read? ==> m.trail[|m.trail| - 1].Reg(f.c) == m.dev.Reg(m.open[i].cell);
    if m'.rdat == m.rdat && !f.alien && m.rdat != 0 {
      var j :| f.from <= j < |m.trail| && m.trail[j].Reg(f.c) == m.rdat;
      assert m'.trail[j].Reg(f.c) == m'.rdat;
    }
  }

  lemma {:induction false} DoAllKeeps(f: Frame, m: Mail, moves: seq<Move>)
    requires Keeps(f, m)
    ensures Keeps(f, DoAll(m, moves)) && m.trail <= DoAll(m, moves).trail
    decreases |moves|
  {
    hide Keeps, Do;
    if moves != [] {
      DoKeeps(f, m, moves[0]);
      DoAllKeeps(f, Do(m, moves[0]), moves[1..]);
    }
  }

  /** Counters do not matter. */
  lemma KeepsCounted(f: Frame, m: Mail, m': Mail)
    requires Keeps(f, m) && m'.dev == m.dev && m'.trail == m.trail && m'.open == m.open
    requires (m'.rdat == m.rdat || m'.rdat == 0) && m'.overruns >= m.overruns
    ensures Keeps(f, m')
  {
    SticksOn(f, m, m');
    hide Sticks;
    if !f.alien && m'.rdat != 0 {
      var j :| f.from <= j < |m.trail| && m.trail[j].Reg(f.c) == m.rdat;
      assert m'.trail[j].Reg(f.c) == m'.rdat;
    }
  }

  lemma TickKeeps(hw: Hardware, f: Frame, m: Mail)
    requires Keeps(f, m)
    ensures Keeps(f, Tick(hw, m)) && m.trail <= Tick(hw, m).trail
  {
    hide Keeps;
    KeepsCounted(f, m, m.(ticks := m.ticks + 1));
    DoAllKeeps(f, m.(ticks := m.ticks + 1), hw(m));
  }

  lemma StartKeeps(f: Frame, m: Mail, command: Command)
    requires Keeps(f, m) && command.cell == f.c && (command.Write? ==> command.value in f.writes)
    ensures Keeps(f, Start(m, command)) && m.trail <= Start(m, command).trail
  {
    var d := if command.Write? then m.dev.Handed(Latched(command.cell, command.value)) else m.dev;
    var m' := m.(open := m.open + [command], prog := true, tmot := false, issued := m.issued + 1);
    if !f.alien && m.rdat != 0 {
      var j :| f.from <= j < |m.trail| && m.trail[j].Reg(f.c) == m.rdat;
      assert m'.trail[j].Reg(f.c) == m'.rdat;
    }
    SticksOn(f, m, m');
    hide Sticks;
    assert Keeps(f, m');
    if command.Write? { HandedIsConfined(f, m.dev, command.value); }
    SeenKeeps(f, m', d);
  }

  lemma {:induction false} AwaitKeeps(hw: Hardware, f: Frame, m: Mail, n: nat)
    requires Keeps(f, m)
    ensures Keeps(f, Await(hw, m, n).mail) && m.trail <= Await(hw, m, n).mail.trail
    decreases n
  {
    hide Keeps, Tick;
    if n > 0 {
      TickKeeps(hw, f, m);
      KeepsCounted(f, Tick(hw, m), Poll(hw, m));
      AwaitKeeps(hw, f, Poll(hw, m), n - 1);
    } else {
      KeepsCounted(f, m, m.(givenUp := m.givenUp + 1));
    }
  }

  lemma IssueKeeps(hw: Hardware, f: Frame, m: Mail, command: Command)
    requires Keeps(f, m) && command.cell == f.c && (command.Write? ==> command.value in f.writes)
    ensures Keeps(f, Issue(hw, m, command).mail) && m.trail <= Issue(hw, m, command).mail.trail
  {
    hide Keeps, Tick, Start, Await;
    StartKeeps(f, m, command);
    var r := Await(hw, Start(m, command), POLLS);
    AwaitKeeps(hw, f, Start(m, command), POLLS);
    TickKeeps(hw, f, r.mail);
  }

  // ---------------------------------------------------------------- a read that runs alone

  /** RDAT is what the cell held, and holds now if nothing but that value is ever written to it. */
  ghost predicate Told(f: Frame, m: Mail) {
    Held(m, f.c, f.from, m.rdat) && ((forall x :: x in f.writes ==> x == m.rdat) ==> m.dev.Reg(f.c) == m.rdat)
  }

  /** A read of the cell is the only command: it is not finished, or it timed out, or it told. */
  ghost predicate Alone(f: Frame, m: Mail) {
    || (m.open == [Read(f.c)] && m.prog)
    || (m.open == [] && !m.prog && (m.tmot || Told(f, m)))
  }

  lemma DoAlone(f: Frame, m: Mail, move: Move)
    requires Keeps(f, m) && Alone(f, m)
    ensures Alone(f, Do(m, move))
  {
    match move {
      case Land(w) => if w in m.dev.inFlight { SeenAlone(f, m, m.dev.Land(w)); }
      case Drop(w) => SeenAlone(f, m, m.dev.(inFlight := m.dev.inFlight - {w}));
      case Finish(i, timeout) =>
        if i < |m.open| && !timeout {
          var m' := Do(m, move);
          assert m.open[i] == Read(f.c);
          assert m'.trail[|m.trail| - 1].Reg(f.c) == m'.rdat;
          assert Told(f, m');
        }
    }
  }

  lemma SeenAlone(f: Frame, m: Mail, d: Device)
    requires Keeps(f, m) && Alone(f, m)
    requires d.Reg(f.c) == m.dev.Reg(f.c) || d.Reg(f.c) in f.writes
    ensures Alone(f, Seen(m, d))
  {
    hide Keeps;
    if Told(f, m) { HeldStays(m, d, f.c, f.from, m.rdat); }
  }

  lemma {:induction false} DoAllAlone(f: Frame, m: Mail, moves: seq<Move>)
    requires Keeps(f, m) && Alone(f, m)
    ensures Alone(f, DoAll(m, moves))
    decreases |moves|
  {
    hide Keeps, Alone, Do;
    if moves != [] {
      DoAlone(f, m, moves[0]);
      DoKeeps(f, m, moves[0]);
      DoAllAlone(f, Do(m, moves[0]), moves[1..]);
    }
  }

  lemma AloneCounted(f: Frame, m: Mail, m': Mail)
    requires Alone(f, m)
    requires m'.dev == m.dev && m'.trail == m.trail && m'.open == m.open
    requires m'.rdat == m.rdat && m'.prog == m.prog && m'.tmot == m.tmot
    ensures Alone(f, m')
  {
    if Told(f, m) {
      var j :| f.from <= j < |m.trail| && m.trail[j].Reg(f.c) == m.rdat;
      assert m'.trail[j].Reg(f.c) == m'.rdat;
    }
  }

  lemma TickAlone(hw: Hardware, f: Frame, m: Mail)
    requires Keeps(f, m) && Alone(f, m)
    ensures Alone(f, Tick(hw, m)) && Keeps(f, Tick(hw, m))
  {
    hide Keeps, Alone;
    var m' := m.(ticks := m.ticks + 1);
    KeepsCounted(f, m, m');
    AloneCounted(f, m, m');
    DoAllAlone(f, m', hw(m));
    TickKeeps(hw, f, m);
  }

  lemma {:induction false} AwaitAlone(hw: Hardware, f: Frame, m: Mail, n: nat)
    requires Keeps(f, m) && Alone(f, m)
    ensures var r := Await(hw, m, n);
            Alone(f, r.mail) && Keeps(f, r.mail) && (!r.failed ==> !r.mail.prog)
    decreases n
  {
    hide Keeps, Alone, Tick;
    if n > 0 {
      TickAlone(hw, f, m);
      KeepsCounted(f, Tick(hw, m), Poll(hw, m));
      AloneCounted(f, Tick(hw, m), Poll(hw, m));
      AwaitAlone(hw, f, Poll(hw, m), n - 1);
    } else {
      KeepsCounted(f, m, m.(givenUp := m.givenUp + 1));
      AloneCounted(f, m, m.(givenUp := m.givenUp + 1));
    }
  }

  /** With no command open, nothing ends: RDAT, PROG and TMOT stay. */
  lemma {:induction false} NothingEnds(m: Mail, moves: seq<Move>)
    requires m.open == []
    ensures var m' := DoAll(m, moves);
            m'.open == [] && m'.rdat == m.rdat && m'.prog == m.prog && m'.tmot == m.tmot
    decreases |moves|
  {
    if moves != [] { NothingEnds(Do(m, moves[0]), moves[1..]); }
  }

  /** A read that begins with no command open tells the truth, if it succeeds. */
  lemma LoneReadTells(hw: Hardware, f: Frame, m: Mail)
    requires Keeps(f, m) && m.open == []
    ensures var r := ReadCell(hw, m, f.c);
            !r.failed ==> r.mail.rdat == r.value && Told(f, r.mail)
  {
    hide Keeps, Tick, Await, Told;
    var m0 := BeginRead(m);
    KeepsCounted(f, m, m0);
    var m1 := Start(m0, Read(f.c));
    StartKeeps(f, m0, Read(f.c));
    assert Alone(f, m1);
    AwaitAlone(hw, f, m1, POLLS);
    var r := Await(hw, m1, POLLS);
    if !r.failed {
      var m2 := Tick(hw, r.mail);
      TickAlone(hw, f, r.mail);
      TickEndsNothing(hw, r.mail);
      var m3 := Tick(hw, m2);
      TickAlone(hw, f, m2);
      TickEndsNothing(hw, m2);
      var m4 := Tick(hw, m3);
      TickAlone(hw, f, m3);
      TickEndsNothing(hw, m3);
      if !m2.tmot {
        AloneTold(f, m4);
        ToldRecorded(f, m4, Recording(m4, Transaction(Read(f.c), m2.tmot, m3.rdat)));
      }
    }
  }

  lemma AloneTold(f: Frame, m: Mail)
    requires Alone(f, m) && m.open == [] && !m.tmot
    ensures Told(f, m)
  {
  }

  lemma ToldRecorded(f: Frame, m: Mail, m': Mail)
    requires m'.dev == m.dev && m'.trail == m.trail && m'.rdat == m.rdat
    ensures Told(f, m) ==> Told(f, m')
  {
    if Told(f, m) {
      var j :| f.from <= j < |m.trail| && m.trail[j].Reg(f.c) == m.rdat;
      assert m'.trail[j].Reg(f.c) == m'.rdat;
    }
  }

  lemma TickEndsNothing(hw: Hardware, m: Mail)
    requires m.open == []
    ensures var m' := Tick(hw, m);
            m'.open == [] && m'.rdat == m.rdat && m'.prog == m.prog && m'.tmot == m.tmot
  {
    NothingEnds(m.(ticks := m.ticks + 1), hw(m));
  }

  // ---------------------------------------------------------------- an attempt, and all of them

  lemma HeldIsConfined(f: Frame, m: Mail, v: Reg32)
    requires Keeps(f, m) && Held(m, f.c, f.from, v)
    ensures v in f.vals
  {
    var j :| f.from <= j < |m.trail| && m.trail[j].Reg(f.c) == v;
    assert Confined(f.o, m.trail[j], f.c, f.vals, f.writes);
  }

  lemma HeldLater(m: Mail, m': Mail, c: Cell, from: nat, v: Reg32)
    requires Held(m, c, from, v) && m.trail <= m'.trail
    ensures Held(m', c, from, v)
  {
    var j :| from <= j < |m.trail| && m.trail[j].Reg(c) == v;
    assert m'.trail[j] == m.trail[j];
  }

  lemma RdatIsHeld(f: Frame, m: Mail)
    requires Keeps(f, m)
    ensures f.alien || m.rdat == 0 || Held(m, f.c, f.from, m.rdat)
  {
  }

  /** What a read returns: zero or a value that the cell held; of a lone read, the latter. */
  lemma ReadKeeps(hw: Hardware, f: Frame, m: Mail)
    requires Keeps(f, m)
    ensures var r := ReadCell(hw, m, f.c);
            && Keeps(f, r.mail) && m.trail <= r.mail.trail
            && (f.alien || r.value == 0 || Held(r.mail, f.c, f.from, r.value))
            && (!r.failed && m.open == [] ==> Told(f, r.mail) && r.mail.rdat == r.value)
  {
    hide Keeps, Told, Issue, Tick;
    var m0 := BeginRead(m);
    KeepsCounted(f, m, m0);
    var r := Issue(hw, m0, Read(f.c));
    IssueKeeps(hw, f, m0, Read(f.c));
    if m.open == [] { LoneReadTells(hw, f, m); }
    var m1 := Tick(hw, r.mail);
    TickKeeps(hw, f, r.mail);
    var m2 := Tick(hw, m1);
    TickKeeps(hw, f, m1);
    RdatIsHeld(f, m1);
    var m3 := Recording(m2, Transaction(Read(f.c), r.failed, m1.rdat));
    KeepsCounted(f, m2, m3);
    if !f.alien && m1.rdat != 0 { HeldLater(m1, m3, f.c, f.from, m1.rdat); }
  }

  /** Merging what a read can return gives a value that may be written. */
  ghost predicate Closed(f: Frame, bits: bv64, mask: bv64) {
    && (forall x :: x in f.vals ==> Merged(x, bits, mask) in f.writes)
    && (f.alien ==> forall x: Reg32 :: Merged(x, bits, mask) in f.writes)
  }

  ghost predicate ZeroClosed(f: Frame, bits: bv64, mask: bv64) {
    Merged(0, bits, mask) in f.writes
  }

  /** At some moment from `from` on, the cell compared equal. */
  ghost predicate WasVerified(m: Mail, c: Cell, from: nat, bits: bv64, mask: bv64) {
    exists v :: Held(m, c, from, v) && Verified(v, bits, mask)
  }

  /** The last read was alone, and what it told compares equal. */
  ghost predicate Trusted(f: Frame, m: Mail, bits: bv64, mask: bv64) {
    Told(f, m) && Verified(m.rdat, bits, mask)
  }

  /** A success is trusted, or it happened after an overrun. */
  ghost predicate Succeeded(f: Frame, m: Mail, bits: bv64, mask: bv64) {
    || Trusted(f, m, bits, mask)
    || (m.overruns > f.overruns && (f.alien || bits == 0 || WasVerified(m, f.c, f.from, bits, mask)))
  }

  /** What a read returned, merged, may be written. */
  lemma ReadIsClosed(f: Frame, m: Mail, v: Reg32, alone: bool, bits: bv64, mask: bv64)
    requires Keeps(f, m) && Closed(f, bits, mask)
    requires f.alien || v == 0 || Held(m, f.c, f.from, v)
    requires alone ==> Told(f, m) && m.rdat == v
    requires alone || ZeroClosed(f, bits, mask)
    ensures Merged(v, bits, mask) in f.writes
  {
    hide Keeps, Merged;
    if Held(m, f.c, f.from, v) { HeldIsConfined(f, m, v); }
  }

  /** A last read that compares equal. */
  lemma ReadSucceeds(f: Frame, m: Mail, v: Reg32, alone: bool, bits: bv64, mask: bv64)
    requires Verified(v, bits, mask) && (f.alien || v == 0 || Held(m, f.c, f.from, v))
    requires if alone then Told(f, m) && m.rdat == v else m.overruns > f.overruns
    ensures Succeeded(f, m, bits, mask)
  {
    ZeroVerifies(bits, mask);
    hide Verified, Held, Told;
  }

  lemma OverrunsSince(f: Frame, m: Mail)
    requires Keeps(f, m)
    ensures f.overruns <= m.overruns
  {
  }

  lemma AttemptKeeps(hw: Hardware, f: Frame, m: Mail, bits: bv64, mask: bv64)
    requires Keeps(f, m) && Closed(f, bits, mask)
    requires ZeroClosed(f, bits, mask) || f.alien || Attempt(hw, m, f.c, bits, mask).mail.overruns == f.overruns
    ensures var o := Attempt(hw, m, f.c, bits, mask);
            && Keeps(f, o.mail) && m.trail <= o.mail.trail
            && (o.verified ==> Succeeded(f, o.mail, bits, mask))
  {
    hide Keeps, Issue, ReadCell, Told, Held, Merge, Low, Verified, Closed, ZeroClosed, Succeeded;
    OverrunsSince(f, m);
    var r := ReadCell(hw, m, f.c);
    ReadKeeps(hw, f, m);
    ReadCounts(hw, m, f.c);
    if !r.failed {
      var v := Low(Merge(r.value, bits, mask));
      var i := Issue(hw, r.mail, Write(f.c, v));
      var w := WriteCell(hw, r.mail, f.c, Merge(r.value, bits, mask));
      IssueCounts(hw, r.mail, Write(f.c, v));
      ReadCounts(hw, w.mail, f.c);
      if f.alien {
        AlienIsClosed(f, r.value, bits, mask);
      } else {
        ReadIsClosed(f, r.mail, r.value, m.open == [], bits, mask);
      }
      IssueKeeps(hw, f, r.mail, Write(f.c, v));
      KeepsCounted(f, i.mail, w.mail);
      if !w.failed {
        ReadKeeps(hw, f, w.mail);
        var r' := ReadCell(hw, w.mail, f.c);
        if !r'.failed && Verified(r'.value, bits, mask) {
          ReadSucceeds(f, r'.mail, r'.value, w.mail.open == [], bits, mask);
        }
      }
    }
  }

  lemma AlienIsClosed(f: Frame, v: Reg32, bits: bv64, mask: bv64)
    requires f.alien && Closed(f, bits, mask)
    ensures Merged(v, bits, mask) in f.writes
  {
  }

  lemma {:induction false} AttemptsKeep(hw: Hardware, f: Frame, m: Mail, bits: bv64, mask: bv64, n: nat)
    requires Keeps(f, m) && Closed(f, bits, mask)
    requires ZeroClosed(f, bits, mask) || f.alien || Attempts(hw, m, f.c, bits, mask, n).mail.overruns == f.overruns
    ensures var o := Attempts(hw, m, f.c, bits, mask, n);
            && Keeps(f, o.mail) && m.trail <= o.mail.trail
            && (o.verified ==> Succeeded(f, o.mail, bits, mask))
    decreases n
  {
    hide Keeps, Attempt, Tick, Succeeded, Closed, ZeroClosed;
    if n > 0 {
      var o := Attempt(hw, m, f.c, bits, mask);
      AttemptCounts(hw, m, f.c, bits, mask);
      var m' := Tick(hw, o.mail);
      if !o.verified {
        TickCounts(hw, o.mail);
        AttemptsCounts(hw, m', f.c, bits, mask, n - 1);
        assert Attempts(hw, m, f.c, bits, mask, n) == Attempts(hw, m', f.c, bits, mask, n - 1);
      }
      OverrunsSince(f, m);
      assert ZeroClosed(f, bits, mask) || f.alien || o.mail.overruns == f.overruns;
      AttemptKeeps(hw, f, m, bits, mask);
      if !o.verified {
        TickKeeps(hw, f, o.mail);
        AttemptsKeep(hw, f, m', bits, mask, n - 1);
      }
    }
  }

  // ---------------------------------------------------------------- what holds for all hardware

  /** The record of a mailbox ends with its present device. */
  predicate Recorded(m: Mail) {
    |m.trail| > 0 && m.trail[|m.trail| - 1] == m.dev
  }

  /** No command is open, and no write to the cell is in flight. */
  ghost predicate Settled(m: Mail, c: Cell) {
    Recorded(m) && m.open == [] && forall w :: w in m.dev.inFlight ==> w.cell != c
  }

  /** From `o` to `d` nothing but merged values has been written, and those to cell `c` only. */
  ghost predicate OnlyMerges(o: Device, d: Device, c: Cell, bits: bv64, mask: bv64) {
    && (forall e :: e != c ==> o.MayHold(e, d.Reg(e)))
    && (forall w :: w in d.inFlight && w.cell != c ==> w in o.inFlight)
    && (o.MayHold(c, d.Reg(c)) || exists x :: d.Reg(c) == Merged(x, bits, mask))
  }

  /** Device `d` is a state that `m'` has gone through since `m`. */
  ghost predicate Passed(m: Mail, m': Mail, d: Device) {
    exists i :: |m.trail| - 1 <= i < |m'.trail| && i >= 0 && m'.trail[i] == d
  }

  /**
    From whatever state of the mailbox, whatever the hardware does, at every moment: no other cell
    has been written, and this one only with merged values.
   */
  lemma ModifyOnlyMerges(hw: Hardware, m: Mail, c: Cell, bits: bv64, mask: bv64)
    requires Recorded(m)
    ensures forall d :: Passed(m, Modify(hw, m, c, bits, mask).mail, d) ==> OnlyMerges(m.dev, d, c, bits, mask)
  {
    hide Merged, Modify;
    var f := WidestFrame(hw, m, c, bits, mask);
    forall d | Passed(m, Modify(hw, m, c, bits, mask).mail, d)
      ensures OnlyMerges(m.dev, d, c, bits, mask)
    {
      assert Confined(m.dev, d, c, f.vals, f.writes);
    }
  }

  /** From any state the call keeps the frame of what the cell may hold and of all merged values. */
  lemma WidestFrame(hw: Hardware, m: Mail, c: Cell, bits: bv64, mask: bv64) returns (f: Frame)
    requires Recorded(m)
    ensures f.o == m.dev && f.c == c && f.from == |m.trail| - 1
    ensures f.vals == iset x: Reg32 | m.dev.MayHold(c, x) || exists u :: x == Merged(u, bits, mask)
    ensures var m' := Modify(hw, m, c, bits, mask).mail;
            Keeps(f, m') && m.trail <= m'.trail && Recorded(m')
  {
    hide Merged;
    var all := iset x: Reg32 | m.dev.MayHold(c, x) || exists u :: x == Merged(u, bits, mask);
    f := Frame(m.dev, c, all, all, |m.trail| - 1, true, m.overruns);
    ConfinedToItself(m.dev, c, all);
    assert Keeps(f, m) && Closed(f, bits, mask);
    AttemptsKeep(hw, f, m, bits, mask, ATTEMPTS);
  }

  lemma ConfinedToItself(o: Device, c: Cell, all: iset<Reg32>)
    requires forall x: Reg32 :: o.MayHold(c, x) ==> x in all
    ensures Confined(o, o, c, all, all)
  {
    forall w | w in o.inFlight && w.cell == c
      ensures w.value in all
    {
      assert w == Latched(c, w.value);
    }
  }

  /** The RDAT of an earlier call does not matter: the first read clears it. */
  lemma ClearedFirst(hw: Hardware, m: Mail, c: Cell, bits: bv64, mask: bv64)
    ensures Modify(hw, m, c, bits, mask) == Modify(hw, m.(rdat := 0), c, bits, mask)
  {
    hide Attempt, Tick;
    ClearedFirstInAttempt(hw, m, c, bits, mask);
  }

  lemma ClearedFirstInAttempt(hw: Hardware, m: Mail, c: Cell, bits: bv64, mask: bv64)
    ensures Attempt(hw, m, c, bits, mask) == Attempt(hw, m.(rdat := 0), c, bits, mask)
  {
    ClearedFirstInRead(hw, m, c);
    hide ReadCell, WriteCell, Merge, Verified;
  }

  lemma ClearedFirstInRead(hw: Hardware, m: Mail, c: Cell)
    ensures ReadCell(hw, m, c) == ReadCell(hw, m.(rdat := 0), c)
  {
    hide Issue, Tick;
  }

  /** From a settled mailbox the call keeps any frame that is closed under merging. */
  lemma ModifyKeeps(hw: Hardware, f: Frame, m: Mail, bits: bv64, mask: bv64)
    requires Settled(m, f.c) && f.o == m.dev && f.from == |m.trail| - 1 && !f.alien
    requires f.writes <= f.vals && m.dev.Reg(f.c) in f.vals && Closed(f, bits, mask)
    requires f.overruns == m.overruns
    requires ZeroClosed(f, bits, mask) || Modify(hw, m, f.c, bits, mask).mail.overruns == m.overruns
    ensures var o := Modify(hw, m, f.c, bits, mask);
            && Keeps(f, o.mail) && m.trail <= o.mail.trail
            && (o.verified ==> Succeeded(f, o.mail, bits, mask))
  {
    hide Keeps, Closed, ZeroClosed, Succeeded, Settled, Attempts;
    SettledKeeps(f, m);
    ClearedFirst(hw, m, f.c, bits, mask);
    AttemptsKeep(hw, f, m.(rdat := 0), bits, mask, ATTEMPTS);
  }

  lemma SettledKeeps(f: Frame, m: Mail)
    requires Settled(m, f.c) && f.o == m.dev && f.from == |m.trail| - 1 && !f.alien
    requires f.writes <= f.vals && m.dev.Reg(f.c) in f.vals && f.overruns == m.overruns
    ensures Keeps(f, m.(rdat := 0))
  {
    assert Confined(m.dev, m.dev, f.c, f.vals, f.writes);
  }

  lemma PassedIsConfined(f: Frame, m: Mail, m': Mail, d: Device)
    requires f.from == |m.trail| - 1 && Keeps(f, m') && Passed(m, m', d)
    ensures Confined(f.o, d, f.c, f.vals, f.writes) && d.Reg(f.c) in f.vals
  {
  }

  /**
    From a settled mailbox, whatever the hardware does: at every moment the cell holds its old
    value, the merged one, or what merging zero gives. If `bits` is not zero, a success means that
    the cell compared equal at some moment of the call.
   */
  lemma ModifyFromSettled(hw: Hardware, m: Mail, c: Cell, bits: bv64, mask: bv64)
    requires Settled(m, c)
    ensures var v, o := m.dev.Reg(c), Modify(hw, m, c, bits, mask);
            && (forall d :: Passed(m, o.mail, d) ==>
                  d.Reg(c) in iset{v, Merged(v, bits, mask), Merged(0, bits, mask)})
            && (o.verified && bits != 0 ==> WasVerified(o.mail, c, |m.trail| - 1, bits, mask))
  {
    hide Merged, Verified, Keeps, Succeeded, WasVerified, Passed, Modify, Settled;
    var f := ThreeValues(hw, m, c, bits, mask);
    var o := Modify(hw, m, c, bits, mask);
    forall d | Passed(m, o.mail, d)
      ensures d.Reg(c) in f.vals
    {
      PassedIsConfined(f, m, o.mail, d);
    }
    if o.verified && bits != 0 { SuccessWasVerified(f, o.mail, bits, mask); }
  }

  lemma ThreeValues(hw: Hardware, m: Mail, c: Cell, bits: bv64, mask: bv64) returns (f: Frame)
    requires Settled(m, c)
    ensures var v, o := m.dev.Reg(c), Modify(hw, m, c, bits, mask);
            && f.c == c && f.from == |m.trail| - 1 && !f.alien && Keeps(f, o.mail)
            && f.vals == iset{v, Merged(v, bits, mask), Merged(0, bits, mask)}
            && (o.verified ==> Succeeded(f, o.mail, bits, mask))
  {
    var v := m.dev.Reg(c);
    var vals := iset{v, Merged(v, bits, mask), Merged(0, bits, mask)};
    f := Frame(m.dev, c, vals, vals, |m.trail| - 1, false, m.overruns);
    ThreeAreClosed(f, v, bits, mask);
    hide Merged, Keeps, Closed, ZeroClosed, Succeeded, Modify, Settled;
    ModifyKeeps(hw, f, m, bits, mask);
  }

  lemma ThreeAreClosed(f: Frame, v: Reg32, bits: bv64, mask: bv64)
    requires f.vals == f.writes == iset{v, Merged(v, bits, mask), Merged(0, bits, mask)} && !f.alien
    ensures Closed(f, bits, mask) && ZeroClosed(f, bits, mask)
  {
    MergedIsIdempotent(v, bits, mask);
    MergedIsIdempotent(0, bits, mask);
    hide Merged;
  }

  lemma TwoAreClosed(f: Frame, v: Reg32, bits: bv64, mask: bv64)
    requires f.vals == iset{v, Merged(v, bits, mask)} && f.writes == iset{Merged(v, bits, mask)} && !f.alien
    ensures Closed(f, bits, mask)
  {
    MergedIsIdempotent(v, bits, mask);
    hide Merged;
  }

  lemma SuccessWasVerified(f: Frame, m: Mail, bits: bv64, mask: bv64)
    requires Succeeded(f, m, bits, mask) && !f.alien && bits != 0
    ensures WasVerified(m, f.c, f.from, bits, mask)
  {
    hide Verified, Held;
  }

  /** Without an overrun a success means that the cell holds the merged value. */
  lemma SuccessIsMerged(f: Frame, m: Mail, v: Reg32, bits: bv64, mask: bv64)
    requires Keeps(f, m) && Succeeded(f, m, bits, mask) && m.overruns == f.overruns
    requires f.vals == iset{v, Merged(v, bits, mask)} && f.writes == iset{Merged(v, bits, mask)}
    ensures m.dev.Reg(f.c) == Merged(v, bits, mask) && WellFormed(bits, mask)
  {
    hide Merged, Verified, WellFormed, Held, Keeps;
    HeldIsConfined(f, m, m.rdat);
    VerifiedMeansMerged(m.rdat, bits, mask);
  }

  /**
    If moreover no read began while an earlier command was unfinished: the cell holds its old
    value or the merged one, and after a success the merged one, which nothing that is still in
    flight can undo.
   */
  lemma ModifyWithoutOverrun(hw: Hardware, m: Mail, c: Cell, bits: bv64, mask: bv64)
    requires Settled(m, c) && Modify(hw, m, c, bits, mask).mail.overruns == m.overruns
    ensures var v, o := m.dev.Reg(c), Modify(hw, m, c, bits, mask);
            && (forall d :: Passed(m, o.mail, d) ==> d.Reg(c) in iset{v, Merged(v, bits, mask)})
            && (o.verified ==> forall moves :: DoAll(o.mail, moves).dev.Reg(c) == Merged(v, bits, mask))
            && (o.verified ==> WellFormed(bits, mask))
  {
    var v, mv := m.dev.Reg(c), Merged(m.dev.Reg(c), bits, mask);
    var f := Frame(m.dev, c, iset{v, mv}, iset{mv}, |m.trail| - 1, false, m.overruns);
    TwoAreClosed(f, v, bits, mask);
    hide Merged, Verified, Keeps, Closed, ZeroClosed, Confined, Succeeded, Passed, Modify, Settled, WellFormed;
    ModifyKeeps(hw, f, m, bits, mask);
    var o := Modify(hw, m, c, bits, mask);
    forall d | Passed(m, o.mail, d)
      ensures d.Reg(c) in iset{v, mv}
    {
      PassedIsConfined(f, m, o.mail, d);
    }
    if o.verified {
      SuccessIsMerged(f, o.mail, v, bits, mask);
      forall moves
        ensures DoAll(o.mail, moves).dev.Reg(c) == mv
      {
        MergedStays(f, o.mail, moves, mv);
      }
    }
  }

  lemma {:induction false} MergedStays(f: Frame, m: Mail, moves: seq<Move>, mv: Reg32)
    requires Keeps(f, m) && f.writes == iset{mv} && m.dev.Reg(f.c) == mv
    ensures DoAll(m, moves).dev.Reg(f.c) == mv
    decreases |moves|
  {
    if moves != [] {
      DoKeeps(f, m, moves[0]);
      WriteOfMerged(f, m, moves[0], mv);
      MergedStays(f, Do(m, moves[0]), moves[1..], mv);
    }
  }

  lemma WriteOfMerged(f: Frame, m: Mail, move: Move, mv: Reg32)
    requires Keeps(f, m) && f.writes == iset{mv} && m.dev.Reg(f.c) == mv
    ensures Do(m, move).dev.Reg(f.c) == mv
  {
    assert Confined(f.o, m.dev, f.c, f.vals, f.writes);
  }

  /** Zero can only be returned for bits inside the mask, whatever the hardware does and from any state. */
  lemma {:induction false} SuccessIsWellFormed(hw: Hardware, m: Mail, c: Cell, bits: bv64, mask: bv64, n: nat)
    requires Attempts(hw, m, c, bits, mask, n).verified
    ensures WellFormed(bits, mask)
    decreases n
  {
    hide ReadCell, WriteCell, Merge, Verified, WellFormed, Tick;
    var o := Attempt(hw, m, c, bits, mask);
    if o.verified {
      var w := WriteCell(hw, ReadCell(hw, m, c).mail, c, Merge(ReadCell(hw, m, c).value, bits, mask));
      VerifiedMeansMerged(ReadCell(hw, w.mail, c).value, bits, mask);
    } else {
      SuccessIsWellFormed(hw, Tick(hw, o.mail), c, bits, mask, n - 1);
    }
  }

  /**
    When Zero is to be trusted: merging zero makes no difference to merging `v`, so that a read
    that is told zero does no harm; and if only bits are to be cleared, all are clear already.
   */
  predicate ZeroIsHarmless(v: Reg32, bits: bv64, mask: bv64) {
    WellFormed(bits, mask) ==> Merged(0, bits, mask) == Merged(v, bits, mask) && (bits == 0 ==> v == 0)
  }

  /** Then, whatever the hardware does, a success leaves the merged value. */
  lemma HarmlessZeroMeansMerged(hw: Hardware, m: Mail, c: Cell, bits: bv64, mask: bv64)
    requires Settled(m, c) && ZeroIsHarmless(m.dev.Reg(c), bits, mask)
    ensures var o := Modify(hw, m, c, bits, mask);
            o.verified ==> o.mail.dev.Reg(c) == Merged(m.dev.Reg(c), bits, mask)
  {
    var v, mv, o := m.dev.Reg(c), Merged(m.dev.Reg(c), bits, mask), Modify(hw, m, c, bits, mask);
    if o.verified {
      SuccessIsWellFormed(hw, m, c, bits, mask, ATTEMPTS);
      var f := Frame(m.dev, c, iset{v, mv}, iset{mv}, |m.trail| - 1, false, m.overruns);
      TwoAreClosed(f, v, bits, mask);
      assert ZeroClosed(f, bits, mask);
      hide Merged, Verified, Keeps, Closed, ZeroClosed, Succeeded, Settled, Modify, WellFormed;
      ModifyKeeps(hw, f, m, bits, mask);
      if bits != 0 {
        SuccessWasVerified(f, o.mail, bits, mask);
        VerifiedSticks(f, o.mail, v, bits, mask);
      } else {
        LastIsConfined(f, o.mail);
      }
    }
  }

  /** A cell that compared equal at some moment holds the merged value now, if nothing else is written. */
  lemma VerifiedSticks(f: Frame, m: Mail, v: Reg32, bits: bv64, mask: bv64)
    requires Keeps(f, m) && WasVerified(m, f.c, f.from, bits, mask)
    requires f.vals == iset{v, Merged(v, bits, mask)} && f.writes == iset{Merged(v, bits, mask)}
    ensures m.dev.Reg(f.c) == Merged(v, bits, mask)
  {
    var x :| Held(m, f.c, f.from, x) && Verified(x, bits, mask);
    HeldIsConfined(f, m, x);
    VerifiedMeansMerged(x, bits, mask);
    hide Merged, Verified, WellFormed, Held;
    assert Sticks(f, m);
  }

  lemma LastIsConfined(f: Frame, m: Mail)
    requires Keeps(f, m)
    ensures m.dev.Reg(f.c) in f.vals
  {
    assert Confined(f.o, m.trail[|m.trail| - 1], f.c, f.vals, f.writes);
  }

  /** What holds of every call, in one place. */
  lemma ModifyHolds(hw: Hardware, m: Mail, c: Cell, bits: bv64, mask: bv64)
    ensures var o := Modify(hw, m, c, bits, mask);
            && o.mail.issued <= m.issued + 15 && o.mail.polls <= m.polls + 150_000
            && (Recorded(m) ==> forall d :: Passed(m, o.mail, d) ==> OnlyMerges(m.dev, d, c, bits, mask))
            && (o.verified ==> WellFormed(bits, mask))
            && (o.verified && bits != 0 && Settled(m, c) ==> WasVerified(o.mail, c, |m.trail| - 1, bits, mask))
            && (o.verified && Settled(m, c) && ZeroIsHarmless(m.dev.Reg(c), bits, mask) ==>
                  o.mail.dev.Reg(c) == Merged(m.dev.Reg(c), bits, mask))
            && (o.verified && o.mail.overruns == m.overruns && Settled(m, c) ==>
                  forall moves :: DoAll(o.mail, moves).dev.Reg(c) == Merged(m.dev.Reg(c), bits, mask))
  {
    if Modify(hw, m, c, bits, mask).verified { SuccessIsWellFormed(hw, m, c, bits, mask, ATTEMPTS); }
    hide Modify, Passed, OnlyMerges, WasVerified, DoAll, Merged, WellFormed, ZeroIsHarmless;
    ModifyIsBounded(hw, m, c, bits, mask);
    if Recorded(m) { ModifyOnlyMerges(hw, m, c, bits, mask); }
    if Settled(m, c) {
      ModifyFromSettled(hw, m, c, bits, mask);
      if ZeroIsHarmless(m.dev.Reg(c), bits, mask) { HarmlessZeroMeansMerged(hw, m, c, bits, mask); }
      if Modify(hw, m, c, bits, mask).mail.overruns == m.overruns { ModifyWithoutOverrun(hw, m, c, bits, mask); }
    }
  }

  /** A frame in which nothing but `command` is written. */
  ghost function FrameOf(m: Mail, command: Command): Frame
    requires Recorded(m)
  {
    var all := iset x: Reg32 | m.dev.MayHold(command.cell, x) || (command.Write? && x == command.value);
    Frame(m.dev, command.cell, all, all, |m.trail| - 1, true, m.overruns)
  }

  lemma FrameHolds(m: Mail, command: Command)
    requires Recorded(m)
    ensures Keeps(FrameOf(m, command), m)
  {
    ConfinedToItself(m.dev, command.cell, FrameOf(m, command).vals);
  }

  lemma FrameMeans(m: Mail, command: Command, m': Mail)
    requires Recorded(m) && Keeps(FrameOf(m, command), m')
    ensures forall d, e :: Passed(m, m', d) ==>
              m.dev.MayHold(e, d.Reg(e)) || (command.Write? && e == command.cell && d.Reg(e) == command.value)
  {
    var f := FrameOf(m, command);
    forall d, e | Passed(m, m', d)
      ensures m.dev.MayHold(e, d.Reg(e)) || (command.Write? && e == command.cell && d.Reg(e) == command.value)
    {
      PassedIsConfined(f, m, m', d);
    }
  }

  lemma IssueIsConfined(hw: Hardware, m: Mail, command: Command)
    requires Recorded(m)
    ensures forall d, e :: Passed(m, Issue(hw, m, command).mail, d) ==>
              m.dev.MayHold(e, d.Reg(e)) || (command.Write? && e == command.cell && d.Reg(e) == command.value)
  {
    FrameHolds(m, command);
    assert command.Write? ==> command.value in FrameOf(m, command).writes;
    hide Issue, Keeps, FrameOf;
    IssueKeeps(hw, FrameOf(m, command), m, command);
    FrameMeans(m, command, Issue(hw, m, command).mail);
  }

  lemma WriteIsConfined(hw: Hardware, m: Mail, c: Cell, value: bv64)
    requires Recorded(m)
    ensures forall d, e :: Passed(m, WriteCell(hw, m, c, value).mail, d) ==>
              m.dev.MayHold(e, d.Reg(e)) || (e == c && d.Reg(e) == Low(value))
  {
    hide Issue, Low;
    IssueIsConfined(hw, m, Write(c, Low(value)));
    assert WriteCell(hw, m, c, value).mail.trail == Issue(hw, m, Write(c, Low(value))).mail.trail;
    forall d | Passed(m, WriteCell(hw, m, c, value).mail, d)
      ensures Passed(m, Issue(hw, m, Write(c, Low(value))).mail, d)
    {
    }
  }

  lemma ReadIsConfined(hw: Hardware, m: Mail, c: Cell)
    requires Recorded(m)
    ensures var r := ReadCell(hw, m, c);
            && (forall d, e :: Passed(m, r.mail, d) ==> m.dev.MayHold(e, d.Reg(e)))
            && (m.open == [] && !r.failed ==> Held(r.mail, c, |m.trail| - 1, r.value))
  {
    var f := FrameOf(m, Read(c));
    FrameHolds(m, Read(c));
    hide ReadCell, Keeps, Held, FrameOf;
    ReadKeeps(hw, f, m);
    FrameMeans(m, Read(c), ReadCell(hw, m, c).mail);
  }

  // ---------------------------------------------------------------- hardware that follows a script

  /** How the hardware deals with a command: it ends it at once, does nothing, or ends the oldest instead. */
  datatype Manner = Prompt | Silent | Stale

  /** Carry the newest command out and end it. */
  function Serve(m: Mail): seq<Move>
    requires m.open != []
  {
    var k := |m.open| - 1;
    match m.open[k]
    case Read(_) => [Finish(k, false)]
    case Write(c, v) => [Land(Latched(c, v)), Drop(Latched(c, v)), Finish(k, false)]
  }

  function Scripted(script: nat -> Manner): Hardware {
    (m: Mail) =>
      if !m.prog || m.open == [] then []
      else
        match script(m.issued)
        case Prompt => Serve(m)
        case Silent => []
        case Stale => [Finish(0, false)]
  }

  lemma QuietTick(script: nat -> Manner, m: Mail)
    requires !m.prog || script(m.issued) == Silent
    ensures Tick(Scripted(script), m) == m.(ticks := m.ticks + 1)
  {
  }

  lemma {:induction false} SilentAwait(script: nat -> Manner, m: Mail, n: nat)
    requires m.prog && script(m.issued) == Silent
    ensures var r := Await(Scripted(script), m, n);
            r.failed && r.mail == m.(ticks := m.ticks + n, polls := m.polls + n, givenUp := m.givenUp + 1)
    decreases n
  {
    if n > 0 {
      QuietTick(script, m);
      SilentAwait(script, Poll(Scripted(script), m), n - 1);
    }
  }

  /** What a silent command leaves. */
  lemma SilentIssue(script: nat -> Manner, m: Mail, command: Command)
    requires script(m.issued + 1) == Silent
    ensures var r := Issue(Scripted(script), m, command);
            r.failed && r.mail == Start(m, command).(
                                    ticks := m.ticks + POLLS, polls := m.polls + POLLS, givenUp := m.givenUp + 1)
  {
    hide Await;
    SilentAwait(script, Start(m, command), POLLS);
  }

  /** A command under which the oldest one ends. */
  lemma StaleIssue(script: nat -> Manner, m: Mail, command: Command)
    requires script(m.issued + 1) == Stale && m.open != []
    ensures var r, s := Issue(Scripted(script), m, command), Start(m, command);
            && !r.failed && !r.mail.prog && !r.mail.tmot && r.mail.issued == m.issued + 1
            && r.mail.dev == s.dev && r.mail.trail == s.trail
            && r.mail.open == m.open[1..] + [command] && r.mail.overruns == m.overruns
            && r.mail.rdat == if m.open[0].Read? then s.dev.Reg(m.open[0].cell) else m.rdat
  {
    var hw, s := Scripted(script), Start(m, command);
    var s' := s.(ticks := s.ticks + 1);
    assert hw(s) == [Finish(0, false)];
    OneMove(s', Finish(0, false));
    assert s.open[0] == m.open[0] && s.open[1..] == m.open[1..] + [command];
    assert s.open[..0] + s.open[1..] == s.open[1..];
    AtOnce(hw, s);
    QuietTick(script, Poll(hw, s));
  }

  lemma OneMove(m: Mail, move: Move)
    ensures DoAll(m, [move]) == Do(m, move)
  {
    assert [move][1..] == [];
  }

  lemma AtOnce(hw: Hardware, m: Mail)
    requires !Poll(hw, m).prog
    ensures Await(hw, m, POLLS) == Reply(Poll(hw, m), false, 0)
  {
    hide Poll;
  }

  /** A read that ends at once. */
  lemma PromptRead(script: nat -> Manner, m: Mail, c: Cell)
    requires script(m.issued + 1) == Prompt
    ensures var r, s := Issue(Scripted(script), m, Read(c)), Start(m, Read(c));
            && !r.failed && !r.mail.prog && r.mail.issued == m.issued + 1
            && r.mail.dev == m.dev && r.mail.open == m.open && r.mail.rdat == m.dev.Reg(c)
            && r.mail.overruns == m.overruns
  {
    var hw, s := Scripted(script), Start(m, Read(c));
    var k := |m.open|;
    assert hw(s) == [Finish(k, false)];
    OneMove(s.(ticks := s.ticks + 1), Finish(k, false));
    assert s.open[..k] + s.open[k + 1..] == m.open;
    AtOnce(hw, s);
    QuietTick(script, Poll(hw, s));
  }

  /** A write that is carried out at once. */
  lemma PromptWrite(script: nat -> Manner, m: Mail, c: Cell, v: Reg32)
    requires script(m.issued + 1) == Prompt
    ensures var r, s := Issue(Scripted(script), m, Write(c, v)), Start(m, Write(c, v));
            && !r.failed && !r.mail.prog && r.mail.issued == m.issued + 1
            && r.mail.dev == Device(m.dev.regs[c := v], m.dev.inFlight - {Latched(c, v)}) && r.mail.open == m.open
            && r.mail.overruns == m.overruns
  {
    var hw, s, w := Scripted(script), Start(m, Write(c, v)), Latched(c, v);
    var k := |m.open|;
    assert hw(s) == [Land(w), Drop(w), Finish(k, false)];
    var s' := s.(ticks := s.ticks + 1);
    ThreeMoves(s', Land(w), Drop(w), Finish(k, false));
    assert s.open[..k] + s.open[k + 1..] == m.open;
    assert s.dev.inFlight - {w} == m.dev.inFlight - {w};
    AtOnce(hw, s);
    QuietTick(script, Poll(hw, s));
  }

  lemma ThreeMoves(m: Mail, a: Move, b: Move, c: Move)
    ensures DoAll(m, [a, b, c]) == Do(Do(Do(m, a), b), c)
  {
    hide Do;
    assert [a, b, c][1..] == [b, c] && [b, c][1..] == [c];
    OneMove(Do(Do(m, a), b), c);
  }

  // Reads through CIOR under each manner; PROG is clear after one that ended.

  lemma PromptReadCell(script: nat -> Manner, m: Mail, c: Cell)
    requires script(m.issued + 1) == Prompt
    ensures var r := ReadCell(Scripted(script), m, c);
            && !r.failed && r.value == m.dev.Reg(c) && r.mail.dev == m.dev && r.mail.open == m.open
            && !r.mail.prog && r.mail.issued == m.issued + 1
  {
    hide Issue, Scripted, Tick;
    var m0 := BeginRead(m);
    PromptRead(script, m0, c);
    TwoQuietTicks(script, Issue(Scripted(script), m0, Read(c)).mail);
  }

  lemma TwoQuietTicks(script: nat -> Manner, m: Mail)
    requires !m.prog || script(m.issued) == Silent
    ensures Tick(Scripted(script), Tick(Scripted(script), m)) == m.(ticks := m.ticks + 2)
    ensures Tick(Scripted(script), m) == m.(ticks := m.ticks + 1)
  {
    QuietTick(script, m);
    QuietTick(script, m.(ticks := m.ticks + 1));
  }

  lemma SilentReadCell(script: nat -> Manner, m: Mail, c: Cell)
    requires script(m.issued + 1) == Silent
    ensures var r := ReadCell(Scripted(script), m, c);
            && r.failed && r.mail.dev == m.dev && r.mail.trail == m.trail + [m.dev]
            && r.mail.open == m.open + [Read(c)] && r.mail.prog && r.mail.issued == m.issued + 1
  {
    hide Issue, Scripted, Tick;
    var m0 := BeginRead(m);
    SilentIssue(script, m0, Read(c));
    TwoQuietTicks(script, Issue(Scripted(script), m0, Read(c)).mail);
  }

  /** The oldest command ends under the read: if it was a write, the read is told zero. */
  lemma StaleReadCell(script: nat -> Manner, m: Mail, c: Cell)
    requires script(m.issued + 1) == Stale && m.open != []
    ensures var r := ReadCell(Scripted(script), m, c);
            && !r.failed && r.value == (if m.open[0].Read? then m.dev.Reg(m.open[0].cell) else 0)
            && r.mail.dev == m.dev && r.mail.trail == m.trail + [m.dev]
            && r.mail.open == m.open[1..] + [Read(c)] && !r.mail.prog && r.mail.issued == m.issued + 1
  {
    hide Issue, Scripted, Tick;
    var m0 := BeginRead(m);
    StaleIssue(script, m0, Read(c));
    TwoQuietTicks(script, Issue(Scripted(script), m0, Read(c)).mail);
  }

  // ---------------------------------------------------------------- hardware that carries every command out

  lemma PromptAttempt(m: Mail, c: Cell, bits: bv64, mask: bv64)
    requires m.dev.inFlight == {}
    ensures var o, mv := Attempt(Scripted(_ => Prompt), m, c, bits, mask), Merged(m.dev.Reg(c), bits, mask);
            && o.mail.dev == Device(m.dev.regs[c := mv], {}) && !o.mail.prog
            && (o.verified <==> WellFormed(bits, mask))
  {
    var script: nat -> Manner := _ => Prompt;
    var hw, v := Scripted(script), m.dev.Reg(c);
    MergedVerifies(v, bits, mask);
    assert Low(Merge(v, bits, mask)) == Merged(v, bits, mask);
    hide Issue, ReadCell, Scripted, Low, Merge, Merged, Verified, WellFormed;
    PromptReadCell(script, m, c);
    var r := ReadCell(hw, m, c);
    PromptWrite(script, r.mail, c, Low(Merge(v, bits, mask)));
    var w := WriteCell(hw, r.mail, c, Merge(v, bits, mask));
    assert r.mail.dev.inFlight - {Latched(c, Low(Merge(v, bits, mask)))} == {};
    PromptReadCell(script, w.mail, c);
  }

  /** On such hardware the call succeeds exactly for well-formed arguments, and merges in any case. */
  lemma {:induction false} PromptAttempts(m: Mail, c: Cell, bits: bv64, mask: bv64, n: nat)
    requires m.dev.inFlight == {} && n > 0
    ensures var o, mv := Attempts(Scripted(_ => Prompt), m, c, bits, mask, n), Merged(m.dev.Reg(c), bits, mask);
            && o.mail.dev == Device(m.dev.regs[c := mv], {}) && (o.verified <==> WellFormed(bits, mask))
    decreases n
  {
    var script: nat -> Manner := _ => Prompt;
    MergedIsIdempotent(m.dev.Reg(c), bits, mask);
    hide Attempt, Scripted, Merged, WellFormed, Tick;
    PromptAttempt(m, c, bits, mask);
    var o := Attempt(Scripted(script), m, c, bits, mask);
    if !o.verified {
      QuietTick(script, o.mail);
      ghost var mv := Merged(m.dev.Reg(c), bits, mask);
      assert m.dev.regs[c := mv][c := mv] == m.dev.regs[c := mv];
    }
    if !o.verified && n > 1 {
      PromptAttempts(Tick(Scripted(script), o.mail), c, bits, mask, n - 1);
    }
  }

  lemma ModifyOnPromptHardware(dev: Device, c: Cell, bits: bv64, mask: bv64)
    requires dev.inFlight == {}
    ensures var o := Modify(Scripted(_ => Prompt), Idle(dev), c, bits, mask);
            && o.mail.dev == Device(dev.regs[c := Merged(dev.Reg(c), bits, mask)], {})
            && (o.verified <==> WellFormed(bits, mask))
  {
    PromptAttempts(Idle(dev), c, bits, mask, ATTEMPTS);
  }

  // ---------------------------------------------------------------- hardware that loses the unmasked bits

  /**
    The first write runs out of polls. It ends under the read of the second attempt, which so
    returns zero; what is merged from that is written and read back.
   */
  function Lossy(i: nat): Manner {
    match i
    case 1 => Prompt
    case 2 => Silent
    case 3 => Stale
    case 4 => Prompt
    case 5 => Prompt
    case _ => Silent
  }

  lemma LossyFirst(m: Mail, c: Cell, bits: bv64, mask: bv64)
    requires m.open == [] && m.issued == 0
    ensures var o, mv := Attempt(Scripted(Lossy), m, c, bits, mask), Merged(m.dev.Reg(c), bits, mask);
            && !o.verified && o.mail.issued == 2 && o.mail.prog
            && o.mail.open == [Write(c, mv)] && o.mail.dev == m.dev.Handed(Latched(c, mv))
  {
    var hw, v := Scripted(Lossy), m.dev.Reg(c);
    assert Low(Merge(v, bits, mask)) == Merged(v, bits, mask);
    hide Issue, ReadCell, Scripted, Low, Merge, Merged, Verified;
    PromptReadCell(Lossy, m, c);
    SilentIssue(Lossy, ReadCell(hw, m, c).mail, Write(c, Low(Merge(v, bits, mask))));
  }

  lemma LossySecond(m: Mail, c: Cell, bits: bv64, mask: bv64, mv: Reg32)
    requires m.open == [Write(c, mv)] && m.issued == 2
    ensures var o := Attempt(Scripted(Lossy), m, c, bits, mask);
            && o.mail.issued == 5 && !o.mail.prog && o.mail.dev.Reg(c) == Merged(0, bits, mask)
            && (o.verified <==> WellFormed(bits, mask))
  {
    var hw := Scripted(Lossy);
    MergedVerifies(0, bits, mask);
    assert Low(Merge(0, bits, mask)) == Merged(0, bits, mask);
    hide Issue, ReadCell, Scripted, Low, Merge, Merged, Verified, WellFormed;
    StaleReadCell(Lossy, m, c);
    var r := ReadCell(hw, m, c);
    PromptWrite(Lossy, r.mail, c, Low(Merge(0, bits, mask)));
    var w := WriteCell(hw, r.mail, c, Merge(0, bits, mask));
    PromptReadCell(Lossy, w.mail, c);
  }

  /** Hardware that never answers again changes nothing. */
  lemma {:induction false} SilentAttempts(script: nat -> Manner, m: Mail, c: Cell, bits: bv64, mask: bv64, n: nat)
    requires forall i :: i > m.issued ==> script(i) == Silent
    ensures var o := Attempts(Scripted(script), m, c, bits, mask, n);
            o.mail.dev == m.dev && !o.verified
    decreases n
  {
    hide Scripted, ReadCell, Tick, Merge, Verified;
    if n > 0 {
      SilentReadCell(script, m, c);
      var r := ReadCell(Scripted(script), m, c);
      assert Attempt(Scripted(script), m, c, bits, mask) == Outcome(r.mail, false);
      QuietTick(script, r.mail);
      SilentAttempts(script, Tick(Scripted(script), r.mail), c, bits, mask, n - 1);
    }
  }

  lemma LosesUnmaskedBits(dev: Device, c: Cell, bits: bv64, mask: bv64)
    ensures var o := Modify(Scripted(Lossy), Idle(dev), c, bits, mask);
            o.mail.dev.Reg(c) == Merged(0, bits, mask) && (o.verified <==> WellFormed(bits, mask))
  {
    hide Attempt, Scripted, Tick, Merged, WellFormed;
    var hw, m := Scripted(Lossy), Idle(dev);
    LossyFirst(m, c, bits, mask);
    var o := Attempt(hw, m, c, bits, mask);
    QuietTick(Lossy, o.mail);
    var m' := Tick(hw, o.mail);
    LossySecond(m', c, bits, mask, Merged(dev.Reg(c), bits, mask));
    var o' := Attempt(hw, m', c, bits, mask);
    assert Modify(hw, m, c, bits, mask) == Attempts(hw, m', c, bits, mask, 4);
    if !o'.verified {
      QuietTick(Lossy, o'.mail);
      SilentAttempts(Lossy, Tick(hw, o'.mail), c, bits, mask, 3);
    }
  }

  /** Whatever the hardware does, a call from the idle mailbox ends with the old or the merged value. */
  ghost predicate OldOrMerged(dev: Device, c: Cell, bits: bv64, mask: bv64) {
    forall hw: Hardware ::
      Modify(hw, Idle(dev), c, bits, mask).mail.dev.Reg(c) in {dev.Reg(c), Merged(dev.Reg(c), bits, mask)}
  }

  /** That is so exactly when merging zero gives one of the two: when there are no other bits to lose. */
  lemma OldOrMergedIff(dev: Device, c: Cell, bits: bv64, mask: bv64)
    requires forall w :: w in dev.inFlight ==> w.cell != c
    ensures OldOrMerged(dev, c, bits, mask) <==> Merged(0, bits, mask) in {dev.Reg(c), Merged(dev.Reg(c), bits, mask)}
  {
    hide Merged, Scripted, Modify, WellFormed, Verified, WasVerified;
    var v := dev.Reg(c);
    if OldOrMerged(dev, c, bits, mask) {
      LosesUnmaskedBits(dev, c, bits, mask);
    }
    if Merged(0, bits, mask) in {v, Merged(v, bits, mask)} {
      forall hw: Hardware
        ensures Modify(hw, Idle(dev), c, bits, mask).mail.dev.Reg(c) in {v, Merged(v, bits, mask)}
      {
        LastIsPassed(hw, Idle(dev), c, bits, mask);
        ModifyFromSettled(hw, Idle(dev), c, bits, mask);
      }
    }
  }

  /** The present device is one that the call has gone through. */
  lemma LastIsPassed(hw: Hardware, m: Mail, c: Cell, bits: bv64, mask: bv64)
    requires Recorded(m)
    ensures var m' := Modify(hw, m, c, bits, mask).mail;
            Passed(m, m', m'.dev)
  {
    hide Merged, Modify, Keeps;
    var f := WidestFrame(hw, m, c, bits, mask);
    var m' := Modify(hw, m, c, bits, mask).mail;
    assert m'.trail[|m'.trail| - 1] == m'.dev;
  }

  // ---------------------------------------------------------------- hardware that makes a call succeed for nothing

  /**
    The first read runs out of polls, and from then on each command ends the one before it: the
    last read is told zero by a write that has not landed.
   */
  function Lagging(i: nat): Manner {
    if i == 1 then Silent else Stale
  }

  /** No register has ever changed. */
  ghost predicate Unwritten(m: Mail, regs: map<Cell, Reg32>) {
    m.dev.regs == regs && forall i :: 0 <= i < |m.trail| ==> m.trail[i].regs == regs
  }

  lemma LaggingSecond(m: Mail, c: Cell, mask: bv64, regs: map<Cell, Reg32>)
    requires m.open == [Read(c)] && m.issued == 1 && Unwritten(m, regs)
    ensures var o := Attempt(Scripted(Lagging), m, c, 0, mask);
            o.verified && Unwritten(o.mail, regs)
  {
    var hw := Scripted(Lagging);
    ZeroVerifies(0, mask);
    hide Issue, ReadCell, Scripted, Low, Merge, Verified;
    StaleReadCell(Lagging, m, c);
    var r := ReadCell(hw, m, c);
    var v := Low(Merge(r.value, 0, mask));
    StaleIssue(Lagging, r.mail, Write(c, v));
    var w := WriteCell(hw, r.mail, c, Merge(r.value, 0, mask));
    StaleReadCell(Lagging, w.mail, c);
  }

  lemma SucceedsForNothing(dev: Device, c: Cell, mask: bv64)
    ensures var o := Modify(Scripted(Lagging), Idle(dev), c, 0, mask);
            o.verified && Unwritten(o.mail, dev.regs)
  {
    hide Scripted, ReadCell, Tick, Merge, Verified;
    var hw, m := Scripted(Lagging), Idle(dev);
    SilentReadCell(Lagging, m, c);
    var r := ReadCell(hw, m, c);
    assert Attempt(hw, m, c, 0, mask) == Outcome(r.mail, false);
    QuietTick(Lagging, r.mail);
    var m' := Tick(hw, r.mail);
    assert Modify(hw, m, c, 0, mask) == Attempts(hw, m', c, 0, mask, 4);
    LaggingSecond(m', c, mask, dev.regs);
  }

  /** Whatever the hardware does, Zero means that the register holds the merged value. */
  ghost predicate ZeroMeansMerged(dev: Device, c: Cell, bits: bv64, mask: bv64) {
    forall hw: Hardware :: var o := Modify(hw, Idle(dev), c, bits, mask);
                           o.verified ==> o.mail.dev.Reg(c) == Merged(dev.Reg(c), bits, mask)
  }

  /** That is so exactly when a read that is told zero does no harm. */
  lemma ZeroMeansMergedIff(dev: Device, c: Cell, bits: bv64, mask: bv64)
    requires forall w :: w in dev.inFlight ==> w.cell != c
    ensures ZeroMeansMerged(dev, c, bits, mask) <==> ZeroIsHarmless(dev.Reg(c), bits, mask)
  {
    MergedOfNothing(mask);
    hide Merged, Scripted, Modify, WellFormed, Verified;
    if ZeroMeansMerged(dev, c, bits, mask) {
      LosesUnmaskedBits(dev, c, bits, mask);
      if bits == 0 { SucceedsForNothing(dev, c, mask); }
    }
    if ZeroIsHarmless(dev.Reg(c), bits, mask) {
      forall hw: Hardware
        ensures var o := Modify(hw, Idle(dev), c, bits, mask);
                o.verified ==> o.mail.dev.Reg(c) == Merged(dev.Reg(c), bits, mask)
      {
        HarmlessZeroMeansMerged(hw, Idle(dev), c, bits, mask);
      }
    }
  }

  lemma MergedOfNothing(mask: bv64)
    ensures Merged(0, 0, mask) == 0
  {
  }

  /** Whatever the hardware does, Zero means that the register compared equal at some moment of the call. */
  ghost predicate ZeroIsTrue(dev: Device, c: Cell, bits: bv64, mask: bv64) {
    forall hw: Hardware :: var o := Modify(hw, Idle(dev), c, bits, mask);
                           o.verified ==> WasVerified(o.mail, c, 0, bits, mask)
  }

  /** That is so exactly when there are bits to set, or nothing to do. */
  lemma ZeroIsTrueIff(dev: Device, c: Cell, bits: bv64, mask: bv64)
    requires forall w :: w in dev.inFlight ==> w.cell != c
    ensures ZeroIsTrue(dev, c, bits, mask) <==> bits != 0 || Verified(dev.Reg(c), bits, mask)
  {
    hide Merged, Scripted, Modify, Verified, Passed;
    if bits == 0 {
      SucceedsForNothing(dev, c, mask);
      var o := Modify(Scripted(Lagging), Idle(dev), c, 0, mask);
      if WasVerified(o.mail, c, 0, 0, mask) {
        var v :| Held(o.mail, c, 0, v) && Verified(v, 0, mask);
      }
    }
    if bits != 0 || Verified(dev.Reg(c), bits, mask) {
      forall hw: Hardware
        ensures var o := Modify(hw, Idle(dev), c, bits, mask);
                o.verified ==> WasVerified(o.mail, c, 0, bits, mask)
      {
        ModifyFromSettled(hw, Idle(dev), c, bits, mask);
        if bits == 0 { HeldAtFirst(hw, dev, c, bits, mask); }
      }
    }
  }

  lemma HeldAtFirst(hw: Hardware, dev: Device, c: Cell, bits: bv64, mask: bv64)
    requires Verified(dev.Reg(c), bits, mask)
    ensures WasVerified(Modify(hw, Idle(dev), c, bits, mask).mail, c, 0, bits, mask)
  {
    hide Verified, Merged, Modify, Keeps;
    var m := Idle(dev);
    var f := WidestFrame(hw, m, c, bits, mask);
    var m' := Modify(hw, m, c, bits, mask).mail;
    assert m'.trail[0] == m.trail[0] == dev;
    assert Held(m', c, 0, dev.Reg(c));
  }
}
