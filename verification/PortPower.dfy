/**
  The nested power-state machines of the Thunderbolt tree: root port RP01, upstream port UPSB,
  downstream ports DSB0 and DSB2, and the functions NHI0 and XHC2 behind them.

  Link, presence and port fields are read from hardware that may answer anything; `RTBT` and
  `RUSB` may change at any time; the only fact about time is that `Sleep` lets at least its
  argument pass.
 */
module PortPower {

  /** The software-visible state of a switchable port. */
  datatype Port = Port(prsr: bool, iip3: bool, pcia: bool, psta: nat, disabled: bool)   // LDXX or LDIS

  datatype Device = RP01 | UPSB | DSB0 | NHI0 | DSB2 | XHC2

  /** What the methods read and write, but for the link speeds. */
  datatype Tree = Tree(rp: Port, dsb0: Port, dsb2: Port, gpci: bool, gnhi: bool, gxci: bool, rtbt: bool, rusb: bool)

  // ---------------------------------------------------------------- what each method does

  /** What PCEU reads from the power and the link field of its port: that each is off. */
  datatype Seen = Seen(powerOff: bool, linkOff: bool)

  /** PCEU: what is seen off is switched on, and PRSR remembers whether anything was. */
  function PowerUp(p: Port, seen: Seen): Port {
    p.(prsr := seen.powerOff || seen.linkOff,
       psta := if seen.powerOff then 0 else p.psta,
       disabled := p.disabled && !seen.linkOff)
  }

  /** PCDA: the port is marked, and switched off if `poff`. */
  function PowerDown(p: Port, poff: bool): Port {
    if poff then p.(pcia := false, psta := 3, disabled := true, iip3 := true) else p.(iip3 := true)
  }

  /** PCED of UPSB, on its root port. PCIA may or may not come back. */
  predicate Brought(p: Port, p': Port) {
    p' == p.(prsr := false, iip3 := false, disabled := !p.iip3 && p.disabled, pcia := p'.pcia)
    && (p.pcia ==> p'.pcia)
  }

  /** PCED of XHC2, on its port DSB2. */
  predicate Woken(p: Port, p': Port) {
    p' == p.(prsr := false, iip3 := false, pcia := p'.pcia) && (p.pcia ==> p'.pcia)
  }

  /** _PS0 of a device, with what it sees of its port's fields; _PS3; and changes from outside. */
  datatype Op = On(d: Device, seen: Seen) | Off(d: Device) | External(rtbt: bool, rusb: bool)

  /** RTBT and RUSB may have changed; all else is as in `s`. */
  function Outside(s: Tree, t: Tree): Tree {
    s.(rtbt := t.rtbt, rusb := t.rusb)
  }

  /** The effect of one call of _PS0 or _PS3, for some behaviour of the hardware. */
  predicate Step(s: Tree, op: Op, s': Tree) {
    match op
    case External(b, u) => s' == s.(rtbt := b, rusb := u)
    case On(RP01, seen) => s' == Outside(s.(rp := PowerUp(s.rp, seen)), s')
    case On(UPSB, _) => Brought(s.rp, s'.rp) && s' == Outside(s.(rp := s'.rp, gpci := true), s')
    case On(DSB0, seen) => s' == Outside(s.(dsb0 := PowerUp(s.dsb0, seen)), s')
    case On(NHI0, _) => Brought(s.rp, s'.rp) && s' == Outside(s.(rp := s'.rp, gpci := true), s')
    case On(DSB2, seen) => s' == Outside(s.(dsb2 := PowerUp(s.dsb2, seen)), s')
    case On(XHC2, _) => Woken(s.dsb2, s'.dsb2) && s' == Outside(s.(dsb2 := s'.dsb2, gxci := true), s')
    case Off(RP01) =>
      var poff := !s.rtbt && !s.rusb;
      s' == Outside(s.(rp := PowerDown(s.rp, poff), gpci := s.gpci && !poff), s')
    case Off(DSB0) => s' == Outside(s.(dsb0 := PowerDown(s.dsb0, !s.rtbt), gnhi := s.gnhi && s.rtbt), s')
    case Off(DSB2) => s' == Outside(s.(dsb2 := PowerDown(s.dsb2, !s.rusb), gxci := s.gxci && s.rusb), s')
    case Off(_) => s' == Outside(s, s')
  }

  // ---------------------------------------------------------------- runs

  function Parent(d: Device): Device {
    match d
    case RP01 => RP01
    case UPSB => RP01
    case DSB0 => UPSB
    case DSB2 => UPSB
    case NHI0 => DSB0
    case XHC2 => DSB2
  }

  /** Parents go on before their children and off after them. */
  predicate Allowed(on: set<Device>, op: Op) {
    match op
    case On(d, _) => d == RP01 || Parent(d) in on
    case Off(d) => forall c :: c in on && c != RP01 ==> Parent(c) != d
    case External(_, _) => true
  }

  function Powered(on: set<Device>, op: Op): set<Device> {
    match op
    case On(d, _) => on + {d}
    case Off(d) => on - {d}
    case External(_, _) => on
  }

  /** The devices in D0 after `ops`, none being on at the start. */
  function OnAfter(ops: seq<Op>): set<Device> {
    if ops == [] then {} else Powered(OnAfter(ops[..|ops| - 1]), ops[|ops| - 1])
  }

  /** `ss` are the states of a run: each operation allowed, each step possible. */
  ghost predicate IsRun(ss: seq<Tree>, ops: seq<Op>) {
    && |ss| == |ops| + 1
    && (forall i :: 0 <= i < |ops| ==> Allowed(OnAfter(ops[..i]), ops[i]))
    && (forall i :: 0 <= i < |ops| ==> Step(ss[i], ops[i], ss[i + 1]))
  }

  predicate Powerful(p: Port) {
    p.psta == 0 && !p.disabled
  }

  /** Fully up: power and link on, no resume pending. */
  predicate Up(p: Port) {
    Powerful(p) && !p.iip3 && !p.prsr
  }

  /** A device in D0 has its port on; one whose child is in D0 has nothing pending either. */
  predicate Safe(on: set<Device>, s: Tree) {
    && (forall d :: d in on && d != RP01 ==> Parent(d) in on)
    && (RP01 in on ==> Powerful(s.rp))
    && (UPSB in on ==> Up(s.rp) && s.gpci)
    && (DSB0 in on ==> Powerful(s.dsb0))
    && (DSB2 in on ==> Powerful(s.dsb2))
    && (XHC2 in on ==> Up(s.dsb2) && s.gxci)
  }

  /** The port whose fields _PS0 of the device reads. */
  predicate HasPort(d: Device) {
    d in {RP01, DSB0, DSB2}
  }

  function PortOf(s: Tree, d: Device): Port
    requires HasPort(d)
  {
    match d
    case RP01 => s.rp
    case DSB0 => s.dsb0
    case DSB2 => s.dsb2
  }

  /** The device whose D0 means that the port has nothing pending. */
  predicate NeedsUp(on: set<Device>, d: Device) {
    (d == RP01 && UPSB in on) || (d == DSB2 && XHC2 in on)
  }

  /**
    What _PS0 sees of its port is right where it matters: nothing that is off is missed, and
    nothing is taken for off while a child needs the port to stay as it is.
   */
  predicate SeenRight(on: set<Device>, s: Tree, op: Op) {
    op.On? && HasPort(op.d) ==>
      var p := PortOf(s, op.d);
      && (p.psta != 0 ==> op.seen.powerOff) && (p.disabled ==> op.seen.linkOff)
      && (NeedsUp(on, op.d) ==> !op.seen.powerOff && !op.seen.linkOff)
  }

  // What a step leaves of the part that concerns one port.

  lemma PowerUpIsPowerful(p: Port, seen: Seen)
    ensures Powerful(PowerUp(p, seen)) <==> (p.psta != 0 ==> seen.powerOff) && (p.disabled ==> seen.linkOff)
  {
  }

  /** A port that is up stays up exactly if nothing is taken for off. */
  lemma UpStaysUp(p: Port, seen: Seen)
    requires Up(p)
    ensures Up(PowerUp(p, seen)) <==> !seen.powerOff && !seen.linkOff
  {
  }

  lemma BroughtIsUp(p: Port, p': Port)
    requires Powerful(p) && Brought(p, p')
    ensures Up(p')
  {
  }

  lemma WokenIsUp(p: Port, p': Port)
    requires Powerful(p) && Woken(p, p')
    ensures Up(p')
  {
  }

  lemma UpIsPowerful(p: Port)
    requires Up(p)
    ensures Powerful(p)
  {
  }

  /** Powering on is safe exactly if what it sees of the port is right where it matters. */
  lemma OnIsSafe(on: set<Device>, s: Tree, d: Device, seen: Seen, s': Tree)
    requires Safe(on, s) && Allowed(on, On(d, seen)) && Step(s, On(d, seen), s')
    ensures Safe(on + {d}, s') <==> SeenRight(on, s, On(d, seen))
  {
    match d {
      case RP01 => RootOnIsSafe(on, s, seen, s');
      case UPSB => BridgeOnIsSafe(on, s, d, seen, s');
      case NHI0 => BridgeOnIsSafe(on, s, d, seen, s');
      case DSB0 => PortOnIsSafe(on, s, d, seen, s');
      case DSB2 => PortOnIsSafe(on, s, d, seen, s');
      case XHC2 => HostOnIsSafe(on, s, seen, s');
    }
  }

  lemma RootOnIsSafe(on: set<Device>, s: Tree, seen: Seen, s': Tree)
    requires Safe(on, s) && Step(s, On(RP01, seen), s')
    ensures Safe(on + {RP01}, s') <==> SeenRight(on, s, On(RP01, seen))
  {
    PowerUpIsPowerful(s.rp, seen);
    if UPSB in on { UpStaysUp(s.rp, seen); }
    hide PowerUp, Powerful, Up;
  }

  lemma BridgeOnIsSafe(on: set<Device>, s: Tree, d: Device, seen: Seen, s': Tree)
    requires Safe(on, s) && Allowed(on, On(d, seen)) && Step(s, On(d, seen), s') && d in {UPSB, NHI0}
    ensures Safe(on + {d}, s')
  {
    if d == NHI0 { assert DSB0 in on && Parent(DSB0) in on && UPSB in on && Parent(UPSB) in on; }
    BroughtIsUp(s.rp, s'.rp);
    UpIsPowerful(s'.rp);
    hide Brought, Powerful, Up;
  }

  lemma PortOnIsSafe(on: set<Device>, s: Tree, d: Device, seen: Seen, s': Tree)
    requires Safe(on, s) && Allowed(on, On(d, seen)) && Step(s, On(d, seen), s') && d in {DSB0, DSB2}
    ensures Safe(on + {d}, s') <==> SeenRight(on, s, On(d, seen))
  {
    PowerUpIsPowerful(s.dsb0, seen);
    PowerUpIsPowerful(s.dsb2, seen);
    if XHC2 in on { UpStaysUp(s.dsb2, seen); }
    hide PowerUp, Powerful, Up;
  }

  lemma HostOnIsSafe(on: set<Device>, s: Tree, seen: Seen, s': Tree)
    requires Safe(on, s) && Allowed(on, On(XHC2, seen)) && Step(s, On(XHC2, seen), s')
    ensures Safe(on + {XHC2}, s')
  {
    WokenIsUp(s.dsb2, s'.dsb2);
    UpIsPowerful(s'.dsb2);
    hide Woken, Powerful, Up;
  }

  lemma OffIsSafe(on: set<Device>, s: Tree, d: Device, s': Tree)
    requires Safe(on, s) && Allowed(on, Off(d)) && Step(s, Off(d), s')
    ensures Safe(on - {d}, s')
  {
    match d { case _ => }
  }

  /** A step from a safe state is safe exactly if what it sees is right where it matters. */
  lemma StepIsSafe(on: set<Device>, s: Tree, op: Op, s': Tree)
    requires Safe(on, s) && Allowed(on, op) && Step(s, op, s')
    ensures Safe(Powered(on, op), s') <==> SeenRight(on, s, op)
  {
    match op {
      case On(d, seen) => OnIsSafe(on, s, d, seen, s');
      case Off(d) => OffIsSafe(on, s, d, s');
      case _ =>
    }
  }

  /** In every step of the run, what is seen is right where it matters. */
  predicate AllSeenRight(ss: seq<Tree>, ops: seq<Op>)
    requires |ss| == |ops| + 1
  {
    if ops == [] then true
    else
      var k := |ops| - 1;
      AllSeenRight(ss[..k + 1], ops[..k]) && SeenRight(OnAfter(ops[..k]), ss[k], ops[k])
  }

  /** The run ends in a safe state, and so does every prefix of it. */
  predicate AlwaysSafe(ss: seq<Tree>, ops: seq<Op>)
    requires |ss| == |ops| + 1
  {
    && Safe(OnAfter(ops), ss[|ops|])
    && (ops == [] || AlwaysSafe(ss[..|ops|], ops[..|ops| - 1]))
  }

  /**
    In a run from any initial state with everything off, whatever the hardware answers and however
    RTBT and RUSB change: at all times a device in D0 has its port on above it, exactly if PCEU
    never misses what is off, nor takes for off what a child in D0 needs.
   */
  lemma {:induction false} RunsAreSafe(ss: seq<Tree>, ops: seq<Op>)
    requires IsRun(ss, ops)
    ensures AlwaysSafe(ss, ops) <==> AllSeenRight(ss, ops)
  {
    if ops != [] {
      var k := |ops| - 1;
      RunPrefix(ss, ops, k);
      RunsAreSafe(ss[..k + 1], ops[..k]);
      assert Step(ss[k], ops[k], ss[k + 1]) && Allowed(OnAfter(ops[..k]), ops[k]);
      hide Safe, SeenRight, Step, Allowed;
      if Safe(OnAfter(ops[..k]), ss[k]) { StepIsSafe(OnAfter(ops[..k]), ss[k], ops[k], ss[k + 1]); }
    }
  }

  /** What _PS0 sees of its port is what the port holds. */
  predicate SeenTrue(s: Tree, op: Op) {
    op.On? && HasPort(op.d) ==> op.seen == Seen(PortOf(s, op.d).psta != 0, PortOf(s, op.d).disabled)
  }

  /** True reads are right in every safe state, so runs with true reads are safe throughout. */
  lemma {:induction false} TrueRunsAreSafe(ss: seq<Tree>, ops: seq<Op>)
    requires IsRun(ss, ops) && forall i :: 0 <= i < |ops| ==> SeenTrue(ss[i], ops[i])
    ensures Safe(OnAfter(ops), ss[|ops|])
  {
    if ops != [] {
      var k := |ops| - 1;
      RunPrefix(ss, ops, k);
      TrueRunsAreSafe(ss[..k + 1], ops[..k]);
      TrueIsRight(OnAfter(ops[..k]), ss[k], ops[k]);
      hide Safe, SeenRight, SeenTrue, Step, Allowed;
      assert IsRun(ss, ops) && Step(ss[k], ops[k], ss[k + 1]) && Allowed(OnAfter(ops[..k]), ops[k]);
      StepIsSafe(OnAfter(ops[..k]), ss[k], ops[k], ss[k + 1]);
    }
  }

  lemma TrueIsRight(on: set<Device>, s: Tree, op: Op)
    requires Safe(on, s) && SeenTrue(s, op)
    ensures SeenRight(on, s, op)
  {
  }

  /** The prefix of a run is a run. */
  lemma RunPrefix(ss: seq<Tree>, ops: seq<Op>, k: nat)
    requires IsRun(ss, ops) && k <= |ops|
    ensures IsRun(ss[..k + 1], ops[..k])
  {
    forall i | 0 <= i < k
      ensures Allowed(OnAfter(ops[..k][..i]), ops[..k][i])
    {
      assert ops[..k][..i] == ops[..i];
    }
  }

  /** In the run, DSB0 was powered down while RTBT was clear. */
  predicate CutNhi(ss: seq<Tree>, ops: seq<Op>)
    requires |ss| == |ops| + 1
  {
    ops != [] &&
    var k := |ops| - 1;
    (ops[k] == Off(DSB0) && !ss[k].rtbt) || CutNhi(ss[..k + 1], ops[..k])
  }

  /**
    The host interface has no counterpart to XHC2's PCED: the PCED that NHI0 calls is that of
    UPSB. So DSB0 never clears its resume mark, and GNHI never comes back: exactly these two
    conditions decide them, in every run.
   */
  lemma {:induction false} NhiMarksStay(ss: seq<Tree>, ops: seq<Op>)
    requires IsRun(ss, ops)
    ensures ss[|ops|].dsb0.iip3 <==> ss[0].dsb0.iip3 || Off(DSB0) in ops
    ensures ss[|ops|].gnhi <==> ss[0].gnhi && !CutNhi(ss, ops)
  {
    hide Step, OnAfter, Allowed;
    if ops != [] {
      var k := |ops| - 1;
      RunPrefix(ss, ops, k);
      NhiMarksStay(ss[..k + 1], ops[..k]);
      assert ops == ops[..k] + [ops[k]];
      assert Step(ss[k], ops[k], ss[k + 1]);
      NhiStep(ss[k], ops[k], ss[k + 1]);
    }
  }

  lemma NhiStep(s: Tree, op: Op, s': Tree)
    requires Step(s, op, s')
    ensures s'.dsb0.iip3 <==> s.dsb0.iip3 || op == Off(DSB0)
    ensures s'.gnhi <==> s.gnhi && !(op == Off(DSB0) && !s.rtbt)
  {
    match op {
      case On(d, seen) => NhiOn(s, d, seen, s');
      case Off(d) => NhiOff(s, d, s');
      case _ =>
    }
  }

  lemma NhiOn(s: Tree, d: Device, seen: Seen, s': Tree)
    requires Step(s, On(d, seen), s')
    ensures s'.dsb0.iip3 == s.dsb0.iip3 && s'.gnhi == s.gnhi
  {
    hide Brought, Woken;
    match d {
      case RP01 =>
      case UPSB =>
      case DSB0 =>
      case NHI0 =>
      case DSB2 =>
      case XHC2 =>
    }
  }

  lemma NhiOff(s: Tree, d: Device, s': Tree)
    requires Step(s, Off(d), s')
    ensures s'.dsb0.iip3 <==> s.dsb0.iip3 || d == DSB0
    ensures s'.gnhi <==> s.gnhi && (d == DSB0 ==> s.rtbt)
  {
    hide PowerUp, Brought, Woken;
    match d { case _ => }
  }

  // ---------------------------------------------------------------- what the methods read, write and wait for

  /** What can be read or written, by the device that it belongs to; and the results of UGIO and Timer. */
  datatype Source =
    | PSTA(d: Device) | LINK(d: Device)                       // power state, and LDXX or LDIS
    | LACR(d: Device) | LTRN(d: Device) | LACT(d: Device)     // link status
    | CSPD | SSPD(d: Device) | TSPD(d: Device) | LRTN         // link speeds and retraining
    | AVND(d: Device)
    | T2PR | P2TR
    | UGIO | TIMER | RTBT | RUSB

  datatype Event =
    | Got(src: Source, value: nat)   // for Timer: how much time has passed unnoticed
    | Put(dst: Source, value: nat)
    | Slept(ms: nat)

  /** The hardware, and other code: what each read returns, given all events before. */
  type Hardware = (seq<Event>, Source) -> nat

  /** Every read returned what the hardware answers there. */
  predicate Answered(log: seq<Event>, hw: Hardware) {
    if log == [] then true
    else
      var k := |log| - 1;
      Answered(log[..k], hw) && (log[k].Got? ==> log[k].value == hw(log[..k], log[k].src))
  }

  lemma AnsweredMore(log: seq<Event>, e: Event, hw: Hardware)
    requires Answered(log, hw) && (e.Got? ==> e.value == hw(log, e.src))
    ensures Answered(log + [e], hw)
  {
    assert (log + [e])[..|log|] == log;
  }

  /** What was read from `src`, from position `from` on. */
  function Gots(log: seq<Event>, from: nat, src: Source): seq<nat> {
    if |log| <= from then []
    else
      var k := |log| - 1;
      Gots(log[..k], from, src) + if log[k].Got? && log[k].src == src then [log[k].value] else []
  }

  /** What was written to `dst`, from position `from` on. */
  function Puts(log: seq<Event>, from: nat, dst: Source): seq<nat> {
    if |log| <= from then []
    else
      var k := |log| - 1;
      Puts(log[..k], from, dst) + if log[k].Put? && log[k].dst == dst then [log[k].value] else []
  }

  lemma NothingSince(log: seq<Event>)
    ensures forall src :: Gots(log, |log|, src) == []
    ensures forall dst :: Puts(log, |log|, dst) == []
  {
  }

  /** One more event. */
  lemma OneMoreEvent(log: seq<Event>, e: Event)
    ensures forall from: nat, src :: from <= |log| ==>
              Gots(log + [e], from, src) == Gots(log, from, src) + if e.Got? && e.src == src then [e.value] else []
    ensures forall from: nat, dst :: from <= |log| ==>
              Puts(log + [e], from, dst) == Puts(log, from, dst) + if e.Put? && e.dst == dst then [e.value] else []
  {
    assert (log + [e])[..|log|] == log;
  }

  /** What a polling loop waits for. */
  datatype Wait =
    | LinkUp(d: Device)
    | LinkGone(d: Device, child: Device)
    | Answering(child: Device)
    | LinkUpAnswering(d: Device, child: Device)

  const ABSENT: nat := 0xFFFF_FFFF

  /** Reads that show what is waited for. */
  predicate Shows(what: Wait, s: seq<Event>) {
    match what
    case LinkUp(d) => ShowsLinkUp(d, s)
    case LinkGone(d, child) =>
      || s == [Got(LACR(d), 1), Got(LACT(d), 0)]
      || (|s| == 2 && Reads(s[0], LACR(d)) && s[0].value != 1 && s[1] == Got(AVND(child), 0xFFFF_FFFF))
    case Answering(child) => |s| == 1 && Reads(s[0], AVND(child)) && s[0].value != 0xFFFF_FFFF
    case LinkUpAnswering(d, child) =>
      && s != [] && Reads(s[|s| - 1], AVND(child)) && s[|s| - 1].value != 0xFFFF_FFFF
      && ShowsLinkUp(d, s[..|s| - 1])
  }

  predicate Reads(e: Event, src: Source) {
    e.Got? && e.src == src
  }

  /** The link is not training, and it is active where the port can tell. */
  predicate ShowsLinkUp(d: Device, s: seq<Event>) {
    && |s| >= 2 && Reads(s[0], LACR(d)) && Reads(s[1], LTRN(d)) && s[1].value != 1
    && if s[0].value == 0 then |s| == 2 else |s| == 3 && s[2] == Got(LACT(d), 1)
  }

  /** From position `from` on, some reads have shown what is waited for. */
  ghost predicate Ever(log: seq<Event>, from: nat, what: Wait) {
    exists i, j :: from <= i <= j <= |log| && Shows(what, log[i..j])
  }

  lemma EverLonger(log: seq<Event>, log': seq<Event>, from: nat, from': nat, what: Wait)
    requires Ever(log, from, what) && log <= log' && from' <= from
    ensures Ever(log', from', what)
  {
    var i, j :| from <= i <= j <= |log| && Shows(what, log[i..j]);
    assert log'[i..j] == log[i..j];
  }

  /** The sources that a check of `what` reads. */
  function Sources(what: Wait): set<Source> {
    match what
    case LinkUp(d) => {LACR(d), LTRN(d), LACT(d)}
    case LinkGone(d, child) => {LACR(d), LACT(d), AVND(child)}
    case Answering(child) => {AVND(child)}
    case LinkUpAnswering(d, child) => {LACR(d), LTRN(d), LACT(d), AVND(child)}
  }

  lemma ShownByReads(what: Wait, s: seq<Event>)
    requires Shows(what, s)
    ensures s != [] && forall e :: e in s ==> e.Got? && e.src in Sources(what)
  {
  }

  /** The reads of a check that fails show nothing, whole or in part. */
  ghost predicate ShowNothing(what: Wait, c: seq<Event>) {
    forall i, j :: 0 <= i <= j <= |c| ==> !Shows(what, c[i..j])
  }

  /** What has not been shown is not shown by an event that is no read of a check. */
  lemma NotByOther(log: seq<Event>, from: nat, what: Wait, e: Event)
    requires !Ever(log, from, what) && !(e.Got? && e.src in Sources(what))
    ensures !Ever(log + [e], from, what)
  {
    forall i, j | from <= i <= j <= |log| + 1
      ensures !Shows(what, (log + [e])[i..j])
    {
      if j <= |log| {
        assert (log + [e])[i..j] == log[i..j];
      } else {
        var s := (log + [e])[i..j];
        if i < j { assert s[j - 1 - i] == e; }
        if Shows(what, s) { ShownByReads(what, s); }
      }
    }
  }

  /** Nor by a check that fails, right after an event that is no read of a check. */
  lemma NotByFailure(log: seq<Event>, from: nat, what: Wait, c: seq<Event>)
    requires !Ever(log, from, what) && ShowNothing(what, c)
    requires from < |log| && !(log[|log| - 1].Got? && log[|log| - 1].src in Sources(what))
    ensures !Ever(log + c, from, what)
  {
    var n := |log|;
    forall i, j | from <= i <= j <= n + |c|
      ensures !Shows(what, (log + c)[i..j])
    {
      if j <= n {
        assert (log + c)[i..j] == log[i..j];
      } else if i >= n {
        assert (log + c)[i..j] == c[i - n..j - n];
      } else {
        var s := (log + c)[i..j];
        assert s[n - 1 - i] == log[n - 1];
        if Shows(what, s) { ShownByReads(what, s); }
      }
    }
  }

  /** The event at `p` is a call of UGIO that reported a change. */
  predicate Changed(log: seq<Event>, p: nat) {
    p < |log| && Reads(log[p], UGIO) && log[p].value != 0
  }

  lemma ChangedStays(log: seq<Event>, log': seq<Event>, p: nat)
    requires log <= log' && p < |log|
    ensures Changed(log, p) <==> Changed(log', p)
  {
  }

  /** What PCED of UPSB writes to bring the link up after a power-down. */
  function ResumeWrites(d: Source): seq<nat> {
    match d
    case LINK(RP01) => [1, 0]
    case TSPD(RP01) => [1, 3]
    case LRTN => [1]
    case _ => []
  }

  /** PCEU on the registers of its port: each field that reads as off is read, and then cleared. */
  function SwitchOn(d: Device, psta: nat, link: nat): seq<Event> {
    [Got(PSTA(d), psta)] + (if psta != 0 then [Put(PSTA(d), 0)] else [])
    + [Got(LINK(d), link)] + (if link == 1 then [Put(LINK(d), 0)] else [])
  }

  // ---------------------------------------------------------------- the methods

  /** One second, in the 100 ns units of Timer. */
  const SECOND: nat := 0x0098_9680

  class Controller {
    const hw: Hardware
    var rp: Port
    var dsb0: Port
    var dsb2: Port
    var gpci: bool
    var gnhi: bool
    var gxci: bool
    var rtbt: bool
    var rusb: bool

    // Instrumentation.
    var timer: nat
    var log: seq<Event>
    ghost var polls: nat      // sleeps of 10 ms inside polling loops

    function State(): Tree
      reads this
    {
      Tree(rp, dsb0, dsb2, gpci, gnhi, gxci, rtbt, rusb)
    }

    predicate Valid()
      reads this
    {
      Answered(log, hw)
    }

    constructor (s: Tree, hw: Hardware)
      ensures Valid() && State() == s && this.hw == hw && polls == 0 && log == []
    {
      this.hw, log, timer, polls := hw, [], 0, 0;
      rp, dsb0, dsb2, gpci, gnhi, gxci, rtbt, rusb := s.rp, s.dsb0, s.dsb2, s.gpci, s.gnhi, s.gxci, s.rtbt, s.rusb;
    }

    /** Read a field of the hardware. */
    method Ask(src: Source) returns (v: nat)
      requires Valid()
      modifies this`log
      ensures Valid() && log == old(log) + [Got(src, v)]
      ensures forall from: nat, x :: from <= |old(log)| ==>
                Gots(log, from, x) == Gots(old(log), from, x) + if src == x then [v] else []
      ensures forall from: nat, x :: from <= |old(log)| ==> Puts(log, from, x) == Puts(old(log), from, x)
    {
      v := hw(log, src);
      AnsweredMore(log, Got(src, v), hw);
      OneMoreEvent(log, Got(src, v));
      log := log + [Got(src, v)];
    }

    /** Write a field of the hardware. */
    method Tell(dst: Source, v: nat)
      requires Valid()
      modifies this`log
      ensures Valid() && log == old(log) + [Put(dst, v)]
      ensures forall from: nat, x :: from <= |old(log)| ==> Gots(log, from, x) == Gots(old(log), from, x)
      ensures forall from: nat, x :: from <= |old(log)| ==>
                Puts(log, from, x) == Puts(old(log), from, x) + if dst == x then [v] else []
    {
      AnsweredMore(log, Put(dst, v), hw);
      OneMoreEvent(log, Put(dst, v));
      log := log + [Put(dst, v)];
    }

    /** Reading Timer: time has passed. */
    method Now() returns (t: nat)
      requires Valid()
      modifies this`timer, this`log
      ensures Valid() && t == timer && old(timer) <= timer && log == old(log) + [Got(TIMER, timer - old(timer))]
      ensures forall from: nat, x :: from <= |old(log)| && x != TIMER ==> Gots(log, from, x) == Gots(old(log), from, x)
      ensures forall from: nat, x :: from <= |old(log)| ==> Puts(log, from, x) == Puts(old(log), from, x)
    {
      var d := Ask(TIMER);
      timer := timer + d;
      t := timer;
    }

    /** Sleep: `ms` milliseconds pass, at least, and other code may change RTBT and RUSB. */
    method Sleep(ms: nat)
      requires Valid()
      modifies this`timer, this`rtbt, this`rusb, this`log
      ensures Valid() && log == old(log) + [Slept(ms)] && timer == old(timer) + 10_000 * ms
      ensures forall from: nat, x :: from <= |old(log)| ==> Gots(log, from, x) == Gots(old(log), from, x)
      ensures forall from: nat, x :: from <= |old(log)| ==> Puts(log, from, x) == Puts(old(log), from, x)
    {
      AnsweredMore(log, Slept(ms), hw);
      OneMoreEvent(log, Slept(ms));
      log := log + [Slept(ms)];
      timer := timer + 10_000 * ms;
      rtbt, rusb := hw(log, RTBT) != 0, hw(log, RUSB) != 0;
    }

    /** UGIO. As shipped its switching is compiled out and it reports no change; nothing here relies on that. */
    method AskUGIO() returns (changed: bool)
      requires Valid()
      modifies this`log
      ensures Valid() && |log| > |old(log)| && old(log) <= log && Reads(log[|old(log)|], UGIO)
      ensures changed <==> log[|old(log)|].value != 0
      ensures forall from: nat, x :: from <= |old(log)| && x != UGIO ==> Gots(log, from, x) == Gots(old(log), from, x)
      ensures forall from: nat, x :: from <= |old(log)| ==> Puts(log, from, x) == Puts(old(log), from, x)
    {
      var v := Ask(UGIO);
      changed := v != 0;
    }

    /** The link is up as far as LACR, LTRN and LACT tell. */
    method LinkReady(d: Device) returns (ready: bool, ghost c: seq<Event>)
      requires Valid()
      modifies this`log
      ensures Valid() && log == old(log) + c && (ready <==> ShowsLinkUp(d, c)) && 2 <= |c| <= 3
      ensures Reads(c[0], LACR(d)) && Reads(c[1], LTRN(d)) && (|c| == 3 ==> Reads(c[2], LACT(d)))
      ensures |c| == 3 <==> c[0].value != 0
      ensures forall from: nat, x :: from <= |old(log)| && x !in {LACR(d), LTRN(d), LACT(d)} ==>
                Gots(log, from, x) == Gots(old(log), from, x)
      ensures forall from: nat, x :: from <= |old(log)| ==> Puts(log, from, x) == Puts(old(log), from, x)
    {
      hide Gots, Puts, Answered;
      var lacr := Ask(LACR(d));
      var ltrn := Ask(LTRN(d));
      c := [Got(LACR(d), lacr), Got(LTRN(d), ltrn)];
      if lacr == 0 {
        ready := ltrn != 1;
      } else {
        var lact := Ask(LACT(d));
        c := [Got(LACR(d), lacr), Got(LTRN(d), ltrn), Got(LACT(d), lact)];
        ready := ltrn != 1 && lact == 1;
      }
    }

    /** The link is down: LACR and LACT say so, or without LACR the device behind it no longer answers. */
    method LinkDown(d: Device, child: Device) returns (down: bool, ghost c: seq<Event>)
      requires Valid()
      modifies this`log
      ensures Valid() && log == old(log) + c && |c| == 2 && Reads(c[0], LACR(d))
      ensures if c[0].value == 1 then Reads(c[1], LACT(d)) && (down <==> c[1].value == 0)
              else Reads(c[1], AVND(child)) && (down <==> c[1].value == 0xFFFF_FFFF)
      ensures forall from: nat, x :: from <= |old(log)| && x !in {LACR(d), LACT(d), AVND(child)} ==>
                Gots(log, from, x) == Gots(old(log), from, x)
      ensures forall from: nat, x :: from <= |old(log)| ==> Puts(log, from, x) == Puts(old(log), from, x)
    {
      hide Gots, Puts, Answered;
      var lacr := Ask(LACR(d));
      if lacr == 1 {
        var lact := Ask(LACT(d));
        c := [Got(LACR(d), lacr), Got(LACT(d), lact)];
        down := lact == 0;
      } else {
        var avnd := Ask(AVND(child));
        c := [Got(LACR(d), lacr), Got(AVND(child), avnd)];
        down := avnd == ABSENT;
      }
    }

    /** The condition that a polling loop waits for: met exactly if the reads show it. */
    method Check(what: Wait) returns (holds: bool, ghost c: seq<Event>)
      requires Valid()
      modifies this`log
      ensures Valid() && log == old(log) + c && (if holds then Shows(what, c) else ShowNothing(what, c))
      ensures forall from: nat, x :: from <= |old(log)| && x !in Sources(what) ==>
                Gots(log, from, x) == Gots(old(log), from, x)
      ensures forall from: nat, x :: from <= |old(log)| ==> Puts(log, from, x) == Puts(old(log), from, x)
    {
      hide Gots, Puts, Answered, ShowNothing;
      match what
      case LinkUp(d) =>
        holds, c := LinkReady(d);
        if !holds { LinkUpNotShown(d, c); }
      case LinkGone(d, child) =>
        holds, c := LinkDown(d, child);
        if !holds { LinkGoneNotShown(d, child, c); }
      case Answering(child) =>
        var avnd := Ask(AVND(child));
        c := [Got(AVND(child), avnd)];
        holds := avnd != ABSENT;
        if !holds { NotAnswering(child, c); }
      case LinkUpAnswering(d, child) =>
        ghost var up;
        holds, up := LinkReady(d);
        var avnd := Ask(AVND(child));
        c := up + [Got(AVND(child), avnd)];
        assert c[..|c| - 1] == up;
        holds := holds && avnd != ABSENT;
        if !holds { LinkUpAnsweringNotShown(d, child, up, c); }
    }

    /**
      A polling loop: until the condition holds or Timer passes the deadline, sleep 10 ms. It ends
      with `held` exactly if the condition was ever seen to hold, and otherwise not before the
      deadline. `spent` counts the sleeps charged to this deadline, over the loops that share it.
     */
    method Poll(what: Wait, deadline: nat, ghost spent: nat) returns (held: bool, ghost spent': nat)
      requires Valid() && deadline >= SECOND && spent <= 101 && deadline - SECOND + 100_000 * spent <= timer
      modifies this`timer, this`polls, this`rtbt, this`rusb, this`log
      ensures Valid() && old(log) <= log && old(timer) <= timer
      ensures held <==> Ever(log, |old(log)|, what)
      ensures !held ==> timer > deadline
      ensures spent <= spent' <= 101 && deadline - SECOND + 100_000 * spent' <= timer
      ensures polls == old(polls) + spent' - spent
      ensures forall from: nat, x :: from <= |old(log)| && x !in Sources(what) + {TIMER} ==>
                Gots(log, from, x) == Gots(old(log), from, x)
      ensures forall from: nat, x :: from <= |old(log)| ==> Puts(log, from, x) == Puts(old(log), from, x)
    {
      hide Gots, Puts, Answered, Ever, Shows, ShowNothing, Sources;
      held, spent' := false, spent;
      NeverYet(log, what);
      var now := NowFor(what, |log|);
      while now <= deadline
        invariant Valid() && old(log) <= log && !held && |log| > |old(log)|
        invariant !Ever(log, |old(log)|, what) && log[|log| - 1].Got? && log[|log| - 1].src == TIMER
        invariant now == timer && spent <= spent' <= 101
        invariant deadline - SECOND + 100_000 * spent' <= now && old(timer) <= now
        invariant polls == old(polls) + spent' - spent
        invariant forall from: nat, x :: from <= |old(log)| && x !in Sources(what) + {TIMER} ==>
                    Gots(log, from, x) == Gots(old(log), from, x)
        invariant forall from: nat, x :: from <= |old(log)| ==> Puts(log, from, x) == Puts(old(log), from, x)
        decreases deadline + 100_000 - now
      {
        ghost var before := log;
        ghost var c;
        held, c := Check(what);
        NoTimer(what);
        if held {
          EverNow(before, |old(log)|, what, c);
          break;
        }
        NotByFailure(before, |old(log)|, what, c);
        before := log;
        Sleep(10);
        NotByOther(before, |old(log)|, what, Slept(10));
        polls, spent' := polls + 1, spent' + 1;
        now := NowFor(what, |old(log)|);
      }
    }

    method NowFor(what: Wait, ghost from: nat) returns (t: nat)
      requires Valid() && !Ever(log, from, what)
      modifies this`timer, this`log
      ensures Valid() && t == timer && old(timer) <= timer && log == old(log) + [Got(TIMER, timer - old(timer))]
      ensures !Ever(log, from, what)
      ensures forall from: nat, x :: from <= |old(log)| && x != TIMER ==> Gots(log, from, x) == Gots(old(log), from, x)
      ensures forall from: nat, x :: from <= |old(log)| ==> Puts(log, from, x) == Puts(old(log), from, x)
    {
      hide Ever, Gots, Puts, Answered;
      t := Now();
      NoTimer(what);
      NotByOther(old(log), from, what, Got(TIMER, timer - old(timer)));
    }

    /** RP01.PCEU: what reads as off is switched on; the PCEU of DSB0 and DSB2 are the same on their own registers. */
    method Rp01PowerOn()
      requires Valid()
      modifies this`rp, this`log
      ensures Valid()
      ensures exists a, b ::
                && log == old(log) + SwitchOn(RP01, a, b)
                && rp == old(rp).(prsr := a != 0 || b == 1,
                  psta := if a != 0 then 0 else old(rp.psta),
                  disabled := old(rp.disabled) && b != 1)
                && Step(old(State()), On(RP01, Seen(a != 0, b == 1)), State())
    {
      hide Answered;
      rp := rp.(prsr := false);
      var psta := Ask(PSTA(RP01));
      if psta != 0 {
        rp := rp.(prsr := true, psta := 0);
        Tell(PSTA(RP01), 0);
      }
      var disabled := Ask(LINK(RP01));
      if disabled == 1 {
        rp := rp.(prsr := true, disabled := false);
        Tell(LINK(RP01), 0);
      }
      assert log == old(log) + SwitchOn(RP01, psta, disabled);
      assert rp == PowerUp(old(rp), Seen(psta != 0, disabled == 1));
    }

    /** DSB0.PCEU. */
    method Dsb0PowerOn()
      requires Valid()
      modifies this`dsb0, this`log
      ensures Valid()
      ensures exists a, b ::
                && log == old(log) + SwitchOn(DSB0, a, b)
                && dsb0 == old(dsb0).(prsr := a != 0 || b == 1,
                  psta := if a != 0 then 0 else old(dsb0.psta),
                  disabled := old(dsb0.disabled) && b != 1)
                && Step(old(State()), On(DSB0, Seen(a != 0, b == 1)), State())
    {
      hide Answered;
      dsb0 := dsb0.(prsr := false);
      var psta := Ask(PSTA(DSB0));
      if psta != 0 {
        dsb0 := dsb0.(prsr := true, psta := 0);
        Tell(PSTA(DSB0), 0);
      }
      var disabled := Ask(LINK(DSB0));
      if disabled == 1 {
        dsb0 := dsb0.(prsr := true, disabled := false);
        Tell(LINK(DSB0), 0);
      }
      assert log == old(log) + SwitchOn(DSB0, psta, disabled);
      assert dsb0 == PowerUp(old(dsb0), Seen(psta != 0, disabled == 1));
    }

    /** DSB2.PCEU. */
    method Dsb2PowerOn()
      requires Valid()
      modifies this`dsb2, this`log
      ensures Valid()
      ensures exists a, b ::
                && log == old(log) + SwitchOn(DSB2, a, b)
                && dsb2 == old(dsb2).(prsr := a != 0 || b == 1,
                  psta := if a != 0 then 0 else old(dsb2.psta),
                  disabled := old(dsb2.disabled) && b != 1)
                && Step(old(State()), On(DSB2, Seen(a != 0, b == 1)), State())
    {
      hide Answered;
      dsb2 := dsb2.(prsr := false);
      var psta := Ask(PSTA(DSB2));
      if psta != 0 {
        dsb2 := dsb2.(prsr := true, psta := 0);
        Tell(PSTA(DSB2), 0);
      }
      var disabled := Ask(LINK(DSB2));
      if disabled == 1 {
        dsb2 := dsb2.(prsr := true, disabled := false);
        Tell(LINK(DSB2), 0);
      }
      assert log == old(log) + SwitchOn(DSB2, psta, disabled);
      assert dsb2 == PowerUp(old(dsb2), Seen(psta != 0, disabled == 1));
    }

    /** Power and link of a port switched off; then the link has gone, or a second has passed. */
    method CutOff(d: Device, child: Device)
      requires Valid()
      modifies this`timer, this`polls, this`rtbt, this`rusb, this`log
      ensures Valid() && old(log) <= log && polls <= old(polls) + 101
      ensures Puts(log, |old(log)|, PSTA(d)) == [3] && Puts(log, |old(log)|, LINK(d)) == [1]
      ensures Ever(log, |old(log)|, LinkGone(d, child)) || timer > old(timer) + SECOND
    {
      hide Gots, Puts, Answered, Ever;
      NothingSince(log);
      Tell(PSTA(d), 3);
      Tell(LINK(d), 1);
      WaitGone(d, child, |old(log)|);
    }

    method WaitGone(d: Device, child: Device, ghost from: nat)
      requires Valid() && from <= |log|
      modifies this`timer, this`polls, this`rtbt, this`rusb, this`log
      ensures Valid() && old(log) <= log && polls <= old(polls) + 101
      ensures Ever(log, from, LinkGone(d, child)) || timer > old(timer) + SECOND
      ensures forall from: nat, x :: from <= |old(log)| ==> Puts(log, from, x) == Puts(old(log), from, x)
    {
      hide Gots, Puts, Answered, Ever;
      var now := Now();
      ghost var before := |log|;
      var held, spent := Poll(LinkGone(d, child), now + SECOND, 0);
      if held { EverLonger(log, log, before, from, LinkGone(d, child)); }
    }

    /** RP01.PCDA: cut off only if allowed, and then not before the link is seen gone or a second has passed. */
    method Rp01PowerOff()
      requires Valid()
      modifies this
      ensures Valid() && old(log) <= log
      ensures Step(old(State()), Off(RP01), State())
      ensures !old(!rtbt && !rusb) ==> log == old(log)
      ensures old(!rtbt && !rusb) ==>
                && Puts(log, |old(log)|, PSTA(RP01)) == [3] && Puts(log, |old(log)|, LINK(RP01)) == [1]
                && (Ever(log, |old(log)|, LinkGone(RP01, UPSB)) || timer > old(timer) + 10_000_000)
      ensures polls <= old(polls) + 101
    {
      hide Gots, Puts, Answered, Ever, Reads, Shows;
      if !rtbt && !rusb {
        rp := rp.(pcia := false);
        rp := rp.(psta := 3);
        rp := rp.(disabled := true);
        CutOff(RP01, UPSB);
        gpci := false;
        ghost var before := log;
        var changed := AskUGIO();
        if Ever(before, |old(log)|, LinkGone(RP01, UPSB)) {
          EverLonger(before, log, |old(log)|, |old(log)|, LinkGone(RP01, UPSB));
        }
      }
      rp := rp.(iip3 := true);
    }

    /** DSB0.PCDA: cut off only if allowed, and then not before the link is seen gone or a second has passed. */
    method Dsb0PowerOff()
      requires Valid()
      modifies this
      ensures Valid() && old(log) <= log
      ensures Step(old(State()), Off(DSB0), State())
      ensures old(rtbt) ==> log == old(log)
      ensures !old(rtbt) ==>
                && Puts(log, |old(log)|, PSTA(DSB0)) == [3] && Puts(log, |old(log)|, LINK(DSB0)) == [1]
                && (Ever(log, |old(log)|, LinkGone(DSB0, NHI0)) || timer > old(timer) + 10_000_000)
      ensures polls <= old(polls) + 101
    {
      hide Gots, Puts, Answered, Ever, Reads, Shows;
      if !rtbt {
        dsb0 := dsb0.(pcia := false);
        dsb0 := dsb0.(psta := 3);
        dsb0 := dsb0.(disabled := true);
        CutOff(DSB0, NHI0);
        gnhi := false;
        ghost var before := log;
        var changed := AskUGIO();
        if Ever(before, |old(log)|, LinkGone(DSB0, NHI0)) {
          EverLonger(before, log, |old(log)|, |old(log)|, LinkGone(DSB0, NHI0));
        }
      }
      dsb0 := dsb0.(iip3 := true);
    }

    /** DSB2.PCDA: cut off only if allowed, and then not before the link is seen gone or a second has passed. */
    method Dsb2PowerOff()
      requires Valid()
      modifies this
      ensures Valid() && old(log) <= log
      ensures Step(old(State()), Off(DSB2), State())
      ensures old(rusb) ==> log == old(log)
      ensures !old(rusb) ==>
                && Puts(log, |old(log)|, PSTA(DSB2)) == [3] && Puts(log, |old(log)|, LINK(DSB2)) == [1]
                && (Ever(log, |old(log)|, LinkGone(DSB2, XHC2)) || timer > old(timer) + 10_000_000)
      ensures polls <= old(polls) + 101
    {
      hide Gots, Puts, Answered, Ever, Reads, Shows;
      if !rusb {
        dsb2 := dsb2.(pcia := false);
        dsb2 := dsb2.(psta := 3);
        dsb2 := dsb2.(disabled := true);
        CutOff(DSB2, XHC2);
        gxci := false;
        ghost var before := log;
        var changed := AskUGIO();
        if Ever(before, |old(log)|, LinkGone(DSB2, XHC2)) {
          EverLonger(before, log, |old(log)|, |old(log)|, LinkGone(DSB2, XHC2));
        }
      }
      dsb2 := dsb2.(iip3 := true);
    }

    /** The first part of UPSB.PCED: after a power-down the link is taken down, to be brought up again. */
    method MarkResume() returns (local0: bool)
      requires Valid()
      modifies this`rp, this`log
      ensures Valid() && old(log) <= log
      ensures local0 == old(rp).iip3 && |log| > |old(log)|
      ensures rp.prsr <==> local0 || old(rp).prsr || Changed(log, |old(log)|)
      ensures rp == old(rp).(prsr := rp.prsr, disabled := local0 || old(rp).disabled)
      ensures forall from: nat, x :: from <= |old(log)| && x != UGIO ==> Gots(log, from, x) == Gots(old(log), from, x)
      ensures forall from: nat, x :: from <= |old(log)| ==>
                Puts(log, from, x) == Puts(old(log), from, x) + if x == LINK(RP01) && local0 then [1] else []
    {
      hide Gots, Puts, Answered;
      var changed := AskUGIO();
      if changed { rp := rp.(prsr := true); }
      local0 := false;
      if rp.iip3 {
        rp := rp.(prsr := true);
        local0 := true;
        rp := rp.(disabled := true);
        Tell(LINK(RP01), 1);
      }
    }

    /** The link of the root port brought up after a power-down, at low speed, and retrained. */
    method BringUp(deadline: nat) returns (ghost spent: nat)
      requires Valid() && deadline >= SECOND && deadline - SECOND <= timer
      modifies this`rp, this`timer, this`polls, this`rtbt, this`rusb, this`log
      ensures Valid() && old(log) <= log && old(timer) + 10_000 * 120 <= timer
      ensures rp == old(rp).(disabled := false)
      ensures spent <= 101 && polls <= old(polls) + spent
      ensures forall from: nat, x :: from <= |old(log)| && x == CSPD ==> Gots(log, from, x) == Gots(old(log), from, x)
      ensures forall from: nat, x :: from <= |old(log)| ==>
                Puts(log, from, x) == Puts(old(log), from, x)
                                      + if x == LINK(RP01) then [0] else ResumeWrites(x)
    {
      hide Gots, Puts, Answered, Ever;
      Tell(TSPD(RP01), 1);
      rp := rp.(disabled := false);
      Tell(LINK(RP01), 0);
      spent := WaitUp(deadline);
      Tell(TSPD(RP01), 3);
      Tell(LRTN, 1);
    }

    method WaitUp(deadline: nat) returns (ghost spent: nat)
      requires Valid() && deadline >= SECOND && deadline - SECOND <= timer
      modifies this`timer, this`polls, this`rtbt, this`rusb, this`log
      ensures Valid() && old(log) <= log && old(timer) + 10_000 * 120 <= timer
      ensures spent <= 101 && polls <= old(polls) + spent
      ensures forall from: nat, x :: from <= |old(log)| && x == CSPD ==> Gots(log, from, x) == Gots(old(log), from, x)
      ensures forall from: nat, x :: from <= |old(log)| ==> Puts(log, from, x) == Puts(old(log), from, x)
    {
      hide Gots, Puts, Answered, Ever;
      var held;
      held, spent := Poll(LinkUp(RP01), deadline, 0);
      Sleep(120);
      held, spent := Poll(Answering(UPSB), deadline, spent);
    }

    /** The retraining part of UPSB.PCED; the deadline it leaves, with the sleeps charged to it. */
    method Retrain(local0: bool) returns (local5: nat, ghost spent: nat)
      requires Valid() && (local0 ==> rp.prsr && rp.disabled)
      modifies this`rp, this`timer, this`polls, this`rtbt, this`rusb, this`log
      ensures Valid() && old(log) <= log
      ensures rp == old(rp).(disabled := !local0 && old(rp).disabled)
      ensures old(timer) + SECOND <= local5 && local5 - SECOND + 100_000 * spent <= timer && spent <= 101
      ensures polls <= old(polls) + 101 + spent
      ensures old(rp.prsr) ==> Ever(log, |old(log)|, LinkUp(RP01)) || timer > old(timer) + SECOND
      ensures timer >= old(timer) + 10_000 * if local0 then 400 else if old(rp.prsr) then 280 else 0
      ensures forall from: nat, x :: from <= |old(log)| && x == CSPD ==> Gots(log, from, x) == Gots(old(log), from, x)
      ensures forall from: nat, x :: from <= |old(log)| ==>
                Puts(log, from, x) == Puts(old(log), from, x)
                                      + if !local0 then [] else if x == LINK(RP01) then [0] else ResumeWrites(x)
    {
      hide Gots, Puts, Answered, Ever;
      var now := Now();
      local5, spent := now + SECOND, 0;
      if rp.prsr {
        Sleep(30);
        if local0 { spent := BringUp(local5); }
        now := Now();
        local5 := now + SECOND;
        ghost var from := |log|;
        var held;
        held, spent := Poll(LinkUp(RP01), local5, 0);
        if held { EverLonger(log, log, from, |old(log)|, LinkUp(RP01)); }
        ghost var before := log;
        Sleep(250);
        if held { EverLonger(before, log, |old(log)|, |old(log)|, LinkUp(RP01)); }
      }
    }

    /** UPSB.PCED up to the wait for UPSB to answer: the link is up again, or a second has passed. */
    method Resume() returns (local5: nat, ghost spent: nat)
      requires Valid()
      modifies this`rp, this`timer, this`polls, this`rtbt, this`rusb, this`log
      ensures Valid() && |log| > |old(log)| && old(log) <= log
      ensures rp == old(rp).(prsr := false, disabled := !old(rp).iip3 && old(rp).disabled)
      ensures old(timer) + SECOND <= local5 && local5 - SECOND + 100_000 * spent <= timer && spent <= 101
      ensures polls <= old(polls) + 101 + spent
      ensures old(rp).prsr || old(rp).iip3 || Changed(log, |old(log)|) ==>
                Ever(log, |old(log)|, LinkUp(RP01)) || timer > old(timer) + SECOND
      ensures timer >= old(timer) + 10_000 * if old(rp).iip3 then 400 else if old(rp).prsr then 280 else 0
      ensures forall from: nat, x :: from <= |old(log)| && x == CSPD ==> Gots(log, from, x) == Gots(old(log), from, x)
      ensures forall from: nat, x :: from <= |old(log)| ==>
                Puts(log, from, x) == Puts(old(log), from, x) + if old(rp).iip3 then ResumeWrites(x) else []
    {
      hide Gots, Puts, Answered, Ever;
      var local0 := MarkResume();
      ghost var log1 := log;
      local5, spent := Retrain(local0);
      ChangedStays(log1, log, |old(log)|);
      rp := rp.(prsr := false);
      if Ever(log, |log1|, LinkUp(RP01)) { EverLonger(log, log, |log1|, |old(log)|, LinkUp(RP01)); }
    }

    /**
      The last part of UPSB.PCED: raise the link speed if both ends can; PCIA is set unless that
      times out.
     */
    method Upshift() returns (pcia: bool)
      requires Valid()
      modifies this`timer, this`polls, this`rtbt, this`rusb, this`log
      ensures Valid() && old(log) <= log && |log| > |old(log)| && Reads(log[|old(log)|], CSPD)
      ensures pcia <==> SpeedIsRight(log, |old(log)|)
      ensures polls <= old(polls) + 101
      ensures !pcia ==> timer > old(timer) + SECOND
      ensures old(timer) <= timer
      ensures forall from: nat, x :: from <= |old(log)| && x == CSPD ==>
                Gots(log, from, x) == Gots(old(log), from, x) + [log[|old(log)|].value]
      ensures forall from: nat, x :: from <= |old(log)| && x == LINK(RP01) ==>
                Puts(log, from, x) == Puts(old(log), from, x)
      ensures if Raisable(log, |old(log)|) then Raised(log, |old(log)| + 3) else |log| <= |old(log)| + 3
    {
      hide Gots, Puts, Answered, Ever, Raised;
      pcia := true;
      var cspd := Ask(CSPD);
      if cspd != 3 {
        var sspd := Ask(SSPD(RP01));
        if sspd == 3 {
          var upsbSspd := Ask(SSPD(UPSB));
          if upsbSspd == 3 { pcia := RaiseSpeed(|old(log)|); }
        }
      }
    }

    /** Both ends set to 8 GT/s and retrained. */
    method RaiseSpeed(ghost p: nat) returns (pcia: bool)
      requires Valid() && p + 3 == |log|
      modifies this`timer, this`polls, this`rtbt, this`rusb, this`log
      ensures Valid() && old(log) <= log && old(timer) <= timer
      ensures pcia <==> Ever(log, p + 3, LinkUpAnswering(RP01, UPSB))
      ensures Raised(log, p + 3)
      ensures polls <= old(polls) + 101 && (!pcia ==> timer > old(timer) + SECOND)
      ensures forall from: nat, x :: from <= |old(log)| && x == CSPD ==> Gots(log, from, x) == Gots(old(log), from, x)
      ensures forall from: nat, x :: from <= |old(log)| && x == LINK(RP01) ==>
                Puts(log, from, x) == Puts(old(log), from, x)
    {
      hide Gots, Puts, Answered, Ever;
      var what := LinkUpAnswering(RP01, UPSB);
      NeverYet(log, what);
      NothingSince(log);
      SetSpeed(RP01, p + 3, what);
      SetSpeed(UPSB, p + 3, what);
      NotByOther(log, p + 3, what, Put(LRTN, 1));
      Tell(LRTN, 1);
      pcia := WaitRaised(p + 3, what);
    }

    method WaitRaised(ghost from: nat, what: Wait) returns (held: bool)
      requires Valid() && from <= |log| && !Ever(log, from, what)
      modifies this`timer, this`polls, this`rtbt, this`rusb, this`log
      ensures Valid() && old(log) <= log && old(timer) <= timer
      ensures held <==> Ever(log, from, what)
      ensures polls <= old(polls) + 101 && (!held ==> timer > old(timer) + SECOND)
      ensures forall from: nat, x :: from <= |old(log)| && x !in Sources(what) + {TIMER} ==>
                Gots(log, from, x) == Gots(old(log), from, x)
      ensures forall from: nat, x :: from <= |old(log)| ==> Puts(log, from, x) == Puts(old(log), from, x)
    {
      hide Gots, Puts, Answered, Ever, Sources;
      var now := NowFor(what, from);
      ghost var before, spent := log, 0;
      held, spent := Poll(what, now + SECOND, 0);
      EverSince(before, log, from, what);
    }

    /** Target speed 3, unless it reads so. */
    method SetSpeed(d: Device, ghost from: nat, ghost what: Wait)
      requires Valid() && what == LinkUpAnswering(RP01, UPSB) && !Ever(log, from, what)
      modifies this`log
      ensures Valid() && old(log) <= log && !Ever(log, from, what)
      ensures |log| > |old(log)| && Reads(log[|old(log)|], TSPD(d))
      ensures forall from: nat, x :: from <= |old(log)| ==>
                Gots(log, from, x) == Gots(old(log), from, x) + if x == TSPD(d) then [log[|old(log)|].value] else []
      ensures forall from: nat, x :: from <= |old(log)| ==>
                Puts(log, from, x) == Puts(old(log), from, x)
                                      + if x == TSPD(d) && log[|old(log)|].value != 3 then [3] else []
    {
      hide Gots, Puts, Answered, Ever;
      var v := Ask(TSPD(d));
      NotByOther(old(log), from, what, Got(TSPD(d), v));
      if v != 3 {
        NotByOther(log, from, what, Put(TSPD(d), 3));
        Tell(TSPD(d), 3);
      }
    }

    /**
      UPSB.PCED, which both UPSB and NHI0 run when they go to D0. It goes on only when what it
      waits for was seen, or a second has passed; PCIA comes back exactly if the speed is right.
     */
    method UpsbPCED()
      requires Valid()
      modifies this
      ensures Valid() && old(log) <= log
      ensures Brought(old(rp), rp) && gpci
      ensures dsb0 == old(dsb0) && dsb2 == old(dsb2) && gnhi == old(gnhi) && gxci == old(gxci)
      ensures polls <= old(polls) + 303
      ensures Puts(log, |old(log)|, LINK(RP01)) == if old(rp.iip3) then [1, 0] else []
      ensures old(rp.prsr || rp.iip3) || Changed(log, |old(log)|) ==>
                Ever(log, |old(log)|, LinkUp(RP01)) || timer > old(timer) + 10_000_000
      ensures Ever(log, |old(log)|, Answering(UPSB)) || timer > old(timer) + 10_000_000
      ensures timer >= old(timer) + 10_000 * if old(rp.iip3) then 400 else if old(rp.prsr) then 280 else 0
      ensures SpeedSettled(log, |old(log)|, old(rp), rp)
    {
      hide Gots, Puts, Answered, Ever, SpeedIsRight, Reads, Raised, Raisable, Changed, ResumeWrites;
      gpci := true;
      var pcia;
      ghost var p;
      pcia, p := Wake();
      if pcia { rp := rp.(pcia := true); }
      rp := rp.(iip3 := false);
    }

    /** UPSB.PCED but for GPCI, PCIA and IIP3; `p` is where it reads the link speed. */
    method Wake() returns (pcia: bool, ghost p: nat)
      requires Valid()
      modifies this`rp, this`timer, this`polls, this`rtbt, this`rusb, this`log
      ensures Valid() && old(log) <= log
      ensures rp == old(rp).(prsr := false, disabled := !old(rp).iip3 && old(rp).disabled)
      ensures polls <= old(polls) + 303
      ensures Puts(log, |old(log)|, LINK(RP01)) == if old(rp.iip3) then [1, 0] else []
      ensures old(rp.prsr || rp.iip3) || Changed(log, |old(log)|) ==>
                Ever(log, |old(log)|, LinkUp(RP01)) || timer > old(timer) + SECOND
      ensures Ever(log, |old(log)|, Answering(UPSB)) || timer > old(timer) + SECOND
      ensures timer >= old(timer) + 10_000 * if old(rp.iip3) then 400 else if old(rp.prsr) then 280 else 0
      ensures |old(log)| <= p < |log| && Reads(log[p], CSPD) && Gots(log, |old(log)|, CSPD) == [log[p].value]
      ensures pcia <==> SpeedIsRight(log, p)
      ensures forall x :: Puts(log[..p], |old(log)|, x) == if old(rp.iip3) then ResumeWrites(x) else []
      ensures if Raisable(log, p) then Raised(log, p + 3) else |log| <= p + 3
    {
      hide Gots, Puts, Answered, Ever, SpeedIsRight, Reads, Raised, Raisable, Changed;
      NothingSince(log);
      var local5;
      ghost var spent;
      local5, spent := Resume();
      ghost var before := log;
      pcia, p := Finish(local5, spent);
      ChangedStays(before, log, |old(log)|);
      if Ever(before, |old(log)|, LinkUp(RP01)) { EverLonger(before, log, |old(log)|, |old(log)|, LinkUp(RP01)); }
      if Ever(log, |before|, Answering(UPSB)) { EverLonger(log, log, |before|, |old(log)|, Answering(UPSB)); }
    }

    /** UPSB.PCED from the wait for UPSB to answer on; `p` is where it reads the link speed. */
    method Finish(local5: nat, ghost spent: nat) returns (pcia: bool, ghost p: nat)
      requires Valid() && spent <= 101 && local5 >= SECOND && local5 - SECOND + 100_000 * spent <= timer
      modifies this`timer, this`polls, this`rtbt, this`rusb, this`log
      ensures Valid() && old(log) <= log && old(timer) <= timer
      ensures |old(log)| <= p < |log| && Reads(log[p], CSPD) && polls <= old(polls) + 202 - spent
      ensures pcia <==> SpeedIsRight(log, p)
      ensures Ever(log, |old(log)|, Answering(UPSB)) || timer > local5
      ensures forall from: nat, x :: from <= |old(log)| && x == CSPD ==>
                Gots(log, from, x) == Gots(old(log), from, x) + [log[p].value]
      ensures forall from: nat, x :: from <= |old(log)| && x == LINK(RP01) ==>
                Puts(log, from, x) == Puts(old(log), from, x)
      ensures forall from: nat, x :: from <= |old(log)| ==> Puts(log[..p], from, x) == Puts(old(log), from, x)
      ensures if Raisable(log, p) then Raised(log, p + 3) else |log| <= p + 3
    {
      hide Gots, Puts, Answered, Ever, SpeedIsRight, Reads, Raised, Raisable;
      var held, spent' := Poll(Answering(UPSB), local5, spent);
      ghost var before := log;
      p := |log|;
      pcia := Upshift();
      assert log[..p] == before;
      if held { EverLonger(before, log, |old(log)|, |old(log)|, Answering(UPSB)); }
    }

    /** UPSB._PS0. */
    method UpsbPowerOn()
      requires Valid()
      modifies this
      ensures Valid() && old(log) <= log && Step(old(State()), On(UPSB, Seen(false, false)), State())
      ensures SpeedSettled(log, |old(log)|, old(rp), rp)
      ensures Ever(log, |old(log)|, Answering(UPSB)) || timer > old(timer) + 10_000_000
      ensures old(rp.prsr || rp.iip3) ==> Ever(log, |old(log)|, LinkUp(RP01)) || timer > old(timer) + 10_000_000
    {
      hide SpeedSettled, Ever;
      UpsbPCED();
    }

    /** NHI0._PS0: its PCED is the one that name lookup finds, that of UPSB. */
    method Nhi0PowerOn()
      requires Valid()
      modifies this
      ensures Valid() && old(log) <= log && Step(old(State()), On(NHI0, Seen(false, false)), State())
      ensures SpeedSettled(log, |old(log)|, old(rp), rp)
      ensures Ever(log, |old(log)|, Answering(UPSB)) || timer > old(timer) + 10_000_000
      ensures old(rp.prsr || rp.iip3) ==> Ever(log, |old(log)|, LinkUp(RP01)) || timer > old(timer) + 10_000_000
    {
      hide SpeedSettled, Ever;
      UpsbPCED();
    }

    /** The retraining part of XHC2.PCED. */
    method XhcRetrain() returns (local5: nat, ghost spent: nat)
      requires Valid()
      modifies this`timer, this`polls, this`rtbt, this`rusb, this`log
      ensures Valid() && old(log) <= log
      ensures old(timer) + SECOND <= local5 && local5 - SECOND + 100_000 * spent <= timer && spent <= 101
      ensures polls <= old(polls) + spent
      ensures dsb2.prsr ==> Ever(log, |old(log)|, LinkUp(DSB2)) || timer > old(timer) + SECOND
      ensures timer >= old(timer) + if dsb2.prsr then 10_000 * 150 else 0
      ensures forall from: nat, x :: from <= |old(log)| && x == AVND(XHC2) ==>
                Gots(log, from, x) == Gots(old(log), from, x)
    {
      hide Gots, Puts, Answered, Ever;
      var now := Now();
      local5, spent := now + SECOND, 0;
      if dsb2.prsr {
        now := Now();
        local5 := now + SECOND;
        ghost var from := |log|;
        var held;
        held, spent := Poll(LinkUp(DSB2), local5, 0);
        ghost var before := log;
        Sleep(150);
        if held { EverLonger(before, log, from, |old(log)|, LinkUp(DSB2)); }
      }
    }

    /** XHC2.PCED up to the wait for XHC2 to answer. */
    method XhcResume() returns (local5: nat, ghost spent: nat)
      requires Valid()
      modifies this`dsb2, this`timer, this`polls, this`rtbt, this`rusb, this`log
      ensures Valid() && |log| > |old(log)| && old(log) <= log && dsb2 == old(dsb2).(prsr := false)
      ensures old(timer) + SECOND <= local5 && local5 - SECOND + 100_000 * spent <= timer && spent <= 101
      ensures polls <= old(polls) + spent
      ensures old(dsb2).prsr || Changed(log, |old(log)|) ==>
                Ever(log, |old(log)|, LinkUp(DSB2)) || timer > old(timer) + SECOND
      ensures timer >= old(timer) + if old(dsb2).prsr then 10_000 * 150 else 0
      ensures Gots(log, |old(log)|, AVND(XHC2)) == []
    {
      hide Gots, Puts, Answered, Ever;
      NothingSince(log);
      var changed := AskUGIO();
      if changed { dsb2 := dsb2.(prsr := true); }
      ghost var log1 := log;
      local5, spent := XhcRetrain();
      dsb2 := dsb2.(prsr := false);
      if Ever(log, |log1|, LinkUp(DSB2)) { EverLonger(log, log, |log1|, |old(log)|, LinkUp(DSB2)); }
    }

    /**
      XHC2.PCED. It goes on only when the link was seen up, if it was retrained, and XHC2 answered,
      or a second has passed; PCIA comes back exactly if XHC2 ever answered.
     */
    method Xhc2PCED()
      requires Valid()
      modifies this
      ensures Valid() && old(log) <= log
      ensures Woken(old(dsb2), dsb2) && gxci
      ensures dsb0 == old(dsb0) && rp == old(rp) && gnhi == old(gnhi) && gpci == old(gpci)
      ensures polls <= old(polls) + 202
      ensures dsb2.pcia <==> old(dsb2.pcia) || Answers(Gots(log, |old(log)|, AVND(XHC2)))
      ensures dsb2.pcia || timer > old(timer) + 10_000_000
      ensures old(dsb2.prsr) || Changed(log, |old(log)|) ==>
                Ever(log, |old(log)|, LinkUp(DSB2)) || timer > old(timer) + 10_000_000
      ensures timer >= old(timer) + if old(dsb2.prsr) then 10_000 * 150 else 0
    {
      hide Gots, Puts, Answered, Ever, Answers;
      gxci := true;
      var local5;
      ghost var spent;
      local5, spent := XhcResume();
      ghost var log2 := log;
      var held;
      held, spent := Poll(Answering(XHC2), local5, spent);
      if held { dsb2 := dsb2.(pcia := true); }
      dsb2 := dsb2.(iip3 := false);
      AnsweredSince(log2, log, |old(log)|, XHC2);
      ChangedStays(log2, log, |old(log)|);
      if Ever(log2, |old(log)|, LinkUp(DSB2)) { EverLonger(log2, log, |old(log)|, |old(log)|, LinkUp(DSB2)); }
    }

    /** XHC2._PS0. */
    method Xhc2PowerOn()
      requires Valid()
      modifies this
      ensures Valid() && old(log) + [Slept(200)] <= log && Step(old(State()), On(XHC2, Seen(false, false)), State())
      ensures dsb2.pcia <==> old(dsb2.pcia) || Answers(Gots(log, |old(log)| + 1, AVND(XHC2)))
      ensures dsb2.pcia || timer > old(timer) + 10_000_000
      ensures old(dsb2.prsr) ==> Ever(log, |old(log)| + 1, LinkUp(DSB2)) || timer > old(timer) + 10_000_000
    {
      hide Gots, Puts, Ever, Answers;
      Sleep(200);
      Xhc2PCED();
    }

    /**
      TBTC: send a command word, poll T2PR for its acknowledge bit at most a hundred times, and
      withdraw the command. The early return of the code, for a T2PR of all ones, sits under a
      clear low bit and cannot be taken.
     */
    method TBTC(arg0: nat)
      requires Valid()
      modifies this`timer, this`rtbt, this`rusb, this`polls, this`log
      ensures Valid() && old(log) <= log
      ensures Puts(log, |old(log)|, P2TR) == [arg0, 0]
      ensures var rs := Gots(log, |old(log)|, T2PR);
              && 1 <= |rs| <= 100 && (forall i :: 0 <= i < |rs| - 1 ==> rs[i] % 2 == 0)
              && (rs[|rs| - 1] % 2 == 1 || |rs| == 100)
              && polls == old(polls) + |rs| - 1 && timer == old(timer) + 10_000 * 50 * (|rs| - 1)
    {
      hide Gots, Puts, Answered;
      NothingSince(log);
      Tell(P2TR, arg0);
      var local0 := 0x64;
      var local1 := Ask(T2PR);
      ghost var rs := [local1];
      while local1 % 2 == 0
        invariant Valid() && old(log) <= log && 0 < local0 <= 0x64
        invariant Puts(log, |old(log)|, P2TR) == [arg0]
        invariant Gots(log, |old(log)|, T2PR) == rs && |rs| == 0x65 - local0 && rs[|rs| - 1] == local1
        invariant forall i :: 0 <= i < |rs| - 1 ==> rs[i] % 2 == 0
        invariant polls == old(polls) + 0x64 - local0 && timer == old(timer) + 10_000 * 50 * (0x64 - local0)
        decreases local0
      {
        if local1 == ABSENT { assert false; }
        local0 := local0 - 1;
        if local0 == 0 { break; }
        local1 := Ask(T2PR);
        rs := rs + [local1];
        Sleep(0x32);
        polls := polls + 1;
      }
      Tell(P2TR, 0);
    }
  }

  // ---------------------------------------------------------------- checks that fail, and waits

  lemma LinkUpNotShown(d: Device, c: seq<Event>)
    requires 2 <= |c| <= 3 && Reads(c[0], LACR(d)) && Reads(c[1], LTRN(d)) && (|c| == 3 ==> Reads(c[2], LACT(d)))
    requires (|c| == 3 <==> c[0].value != 0) && !ShowsLinkUp(d, c)
    ensures ShowNothing(LinkUp(d), c)
  {
    forall i, j | 0 <= i <= j <= |c|
      ensures !ShowsLinkUp(d, c[i..j])
    {
      if j - i >= 2 { assert c[i..j][0] == c[i] && c[i..j][1] == c[i + 1]; }
      if i == 0 && j == |c| { assert c[i..j] == c; }
    }
  }

  lemma LinkGoneNotShown(d: Device, child: Device, c: seq<Event>)
    requires |c| == 2 && Reads(c[0], LACR(d))
    requires if c[0].value == 1 then Reads(c[1], LACT(d)) && c[1].value != 0
             else Reads(c[1], AVND(child)) && c[1].value != 0xFFFF_FFFF
    ensures ShowNothing(LinkGone(d, child), c)
  {
    forall i, j | 0 <= i <= j <= |c|
      ensures !Shows(LinkGone(d, child), c[i..j])
    {
      if j - i >= 2 { assert c[i..j] == c; }
    }
  }

  lemma NotAnswering(child: Device, c: seq<Event>)
    requires c == [Got(AVND(child), 0xFFFF_FFFF)]
    ensures ShowNothing(Answering(child), c)
  {
    forall i, j | 0 <= i <= j <= |c|
      ensures !Shows(Answering(child), c[i..j])
    {
      if i < j { assert c[i..j] == c; }
    }
  }

  lemma LinkUpAnsweringNotShown(d: Device, child: Device, up: seq<Event>, c: seq<Event>)
    requires 2 <= |up| <= 3 && Reads(up[0], LACR(d)) && Reads(up[1], LTRN(d)) && (|up| == 3 ==> Reads(up[2], LACT(d)))
    requires |c| == |up| + 1 && c[..|up|] == up && Reads(c[|up|], AVND(child))
    requires !ShowsLinkUp(d, up) || c[|up|].value == 0xFFFF_FFFF
    ensures ShowNothing(LinkUpAnswering(d, child), c)
  {
    forall k | 0 <= k < |up|
      ensures c[k] == up[k]
    {
      assert c[..|up|][k] == c[k];
    }
    forall i, j | 0 <= i <= j <= |c|
      ensures !Shows(LinkUpAnswering(d, child), c[i..j])
    {
      var s := c[i..j];
      if s != [] {
        assert s[|s| - 1] == c[j - 1];
        if |s| >= 2 { assert s[..|s| - 1][0] == c[i]; }
        if i == 0 && j == |c| { assert s == c && s[..|s| - 1] == up; }
      }
    }
  }

  lemma NeverYet(log: seq<Event>, what: Wait)
    ensures !Ever(log, |log|, what)
  {
    forall i, j | |log| <= i <= j <= |log|
      ensures !Shows(what, log[i..j])
    {
      if Shows(what, log[i..j]) { ShownByReads(what, log[i..j]); }
    }
  }

  lemma NoTimer(what: Wait)
    ensures TIMER !in Sources(what)
  {
  }

  lemma EverNow(log: seq<Event>, from: nat, what: Wait, c: seq<Event>)
    requires Shows(what, c) && from <= |log|
    ensures Ever(log + c, from, what)
  {
    assert (log + c)[|log|..|log| + |c|] == c;
  }

  /** What had not been shown, up to a reading of Timer, is shown exactly if it is shown after it. */
  lemma EverSince(log: seq<Event>, log': seq<Event>, from: nat, what: Wait)
    requires log <= log' && from < |log| && !Ever(log, from, what) && Reads(log[|log| - 1], TIMER)
    ensures Ever(log', from, what) <==> Ever(log', |log|, what)
  {
    if Ever(log', |log|, what) { EverLonger(log', log', |log|, from, what); }
    if Ever(log', from, what) {
      var i, j :| from <= i <= j <= |log'| && Shows(what, log'[i..j]);
      if i < |log| {
        NotAcross(log, log', from, what, i, j);
        assert false;
      }
    }
  }

  lemma NotAcross(log: seq<Event>, log': seq<Event>, from: nat, what: Wait, i: nat, j: nat)
    requires log <= log' && from < |log| && !Ever(log, from, what) && Reads(log[|log| - 1], TIMER)
    requires from <= i < |log| && i <= j <= |log'|
    ensures !Shows(what, log'[i..j])
  {
    var s := log'[i..j];
    NoTimer(what);
    if j <= |log| {
      assert s == log[i..j];
    } else {
      assert s[|log| - 1 - i] == log[|log| - 1];
      if Shows(what, s) { ShownByReads(what, s); }
    }
  }

  /** The speed is not the highest, and both ends can do it. */
  predicate Raisable(log: seq<Event>, p: nat) {
    && p + 2 < |log|
    && Reads(log[p], CSPD) && log[p].value != 3
    && log[p + 1] == Got(SSPD(RP01), 3) && log[p + 2] == Got(SSPD(UPSB), 3)
  }

  /** From `p` on each end has been set to the highest speed, unless it was, and the link retrained. */
  ghost predicate Raised(log: seq<Event>, p: nat) {
    && Puts(log, p, LRTN) == [1]
    && SpeedSet(Gots(log, p, TSPD(RP01)), Puts(log, p, TSPD(RP01)))
    && SpeedSet(Gots(log, p, TSPD(UPSB)), Puts(log, p, TSPD(UPSB)))
  }

  predicate SpeedSet(got: seq<nat>, put: seq<nat>) {
    |got| == 1 && put == if got[0] == 3 then [] else [3]
  }

  /**
    PCED of UPSB on its root port: it reads the speed once, at some `i`. Before, it wrote what
    brings the link up after a power-down, and nothing else; after, it raised the speed if that
    can be done. PCIA is set exactly if the speed is right.
   */
  ghost predicate SpeedSettled(log: seq<Event>, from: nat, p: Port, p': Port) {
    exists i ::
      && from <= i < |log| && Reads(log[i], CSPD) && Gots(log, from, CSPD) == [log[i].value]
      && (p'.pcia <==> p.pcia || SpeedIsRight(log, i))
      && (forall x :: Puts(log[..i], from, x) == if p.iip3 then ResumeWrites(x) else [])
      && (if Raisable(log, i) then Raised(log, i + 3) else |log| <= i + 3)
  }

  /** The speed needs no change, cannot be changed, or the link came up with it and UPSB answered. */
  ghost predicate SpeedIsRight(log: seq<Event>, p: nat)
    requires p < |log| && Reads(log[p], CSPD)
  {
    || log[p].value == 3
    || (p + 1 < |log| && Reads(log[p + 1], SSPD(RP01)) && log[p + 1].value != 3)
    || (p + 2 < |log| && Reads(log[p + 2], SSPD(UPSB)) && log[p + 2].value != 3)
    || Ever(log, p + 3, LinkUpAnswering(RP01, UPSB))
  }

  lemma LastAnswer(log: seq<Event>, from: nat, d: Device)
    requires from < |log|
    ensures var k := |log| - 1;
            Ever(log, from, Answering(d)) <==>
            Ever(log[..k], from, Answering(d)) || (Reads(log[k], AVND(d)) && log[k].value != 0xFFFF_FFFF)
  {
    var k := |log| - 1;
    if Ever(log[..k], from, Answering(d)) { EverLonger(log[..k], log, from, from, Answering(d)); }
    assert log[k..k + 1] == [log[k]];
    if Ever(log, from, Answering(d)) {
      var i, j :| from <= i <= j <= |log| && Shows(Answering(d), log[i..j]);
      assert j == i + 1 && log[i..j] == [log[i]];
      if j <= k { assert log[..k][i..j] == log[i..j]; }
    } else {
      assert !Shows(Answering(d), log[k..k + 1]);
    }
  }

  /** One of the vendor and device ids read is that of a device. */
  predicate Answers(ids: seq<nat>) {
    exists v :: v in ids && v != 0xFFFF_FFFF
  }

  lemma AnswersMore(ids: seq<nat>, id: nat)
    ensures Answers(ids + [id]) <==> Answers(ids) || id != 0xFFFF_FFFF
  {
    if Answers(ids) {
      var v :| v in ids && v != 0xFFFF_FFFF;
      assert v in ids + [id];
    }
    if id != 0xFFFF_FFFF { assert id in ids + [id]; }
  }

  /** A device has been seen to answer exactly if one of its reads was not all ones. */
  lemma {:induction false} EverAnswered(log: seq<Event>, from: nat, d: Device)
    requires from <= |log|
    ensures Ever(log, from, Answering(d)) <==> Answers(Gots(log, from, AVND(d)))
  {
    if |log| > from {
      var k := |log| - 1;
      EverAnswered(log[..k], from, d);
      LastAnswer(log, from, d);
      assert Gots(log, from, AVND(d)) ==
             if Reads(log[k], AVND(d)) then Gots(log[..k], from, AVND(d)) + [log[k].value]
             else Gots(log[..k], from, AVND(d));
      if Reads(log[k], AVND(d)) { AnswersMore(Gots(log[..k], from, AVND(d)), log[k].value); }
    } else {
      NeverYet(log, Answering(d));
    }
  }

  lemma {:induction false} GotsJoin(log: seq<Event>, log': seq<Event>, from: nat, src: Source)
    requires log <= log' && from <= |log|
    ensures Gots(log', from, src) == Gots(log, from, src) + Gots(log', |log|, src)
  {
    if log' != log {
      var k := |log'| - 1;
      GotsJoin(log, log'[..k], from, src);
    } else {
      assert Gots(log', |log|, src) == [];
    }
  }

  /** What was not read up to `log` is answered exactly if the device answers after it. */
  lemma AnsweredSince(log: seq<Event>, log': seq<Event>, from: nat, d: Device)
    requires log <= log' && from <= |log| && Gots(log, from, AVND(d)) == []
    ensures Ever(log', |log|, Answering(d)) <==> Answers(Gots(log', from, AVND(d)))
  {
    EverAnswered(log', |log|, d);
    GotsJoin(log, log', from, AVND(d));
    assert Gots(log', from, AVND(d)) == Gots(log', |log|, AVND(d));
  }
}
