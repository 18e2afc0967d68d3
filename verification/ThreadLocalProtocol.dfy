/**
  The lock-free slot table `ThreadLocal<T, N>` as a step machine.

  Any number of threads run `set`, `get` and `erase`. One step performs one atomic access of
  the shared table: one load or one compare-and-swap of `threads[i]`, or one write of
  `values[i]`. A schedule is an arbitrary sequence of actions, so a statement about `Run` of
  every schedule is a statement about every interleaving, under sequential consistency.
 */
module ThreadLocalProtocol {
  import opened Common

  datatype Op<V> = Set(value: V) | Get | Erase

  /** Where a thread stands inside its current call. */
  datatype Pc<V> =
    | Idle
    | SetFind(arg: V, i: nat)                     // next: load threads[i], first loop
    | SetClaim(arg: V, i: nat)                    // next: CAS threads[i] from null, second loop
    | SetStore(arg: V, slot: nat, claimed: bool)  // next: *ptr = value; claimed when the CAS found the slot
    | GetFind(i: nat)                             // next: load threads[i]
    | EraseFind(i: nat)                           // next: load threads[i]
    | EraseClear(slot: nat)                       // next: values[slot] = {}
    | EraseFree(slot: nat)                        // next: CAS threads[slot] to null
    | Answer(ok: bool)                            // about to return: true, or false (null for get)

  /** The shared memory: threads[], values[], and the value that `T {}` stands for. */
  datatype Table<V> = Table(owners: seq<Option<Tid>>, values: seq<V>, zero: V)

  /** Where every thread stands, and the pointers `&values[slot]` that threads have from get and not erased since. */
  datatype State<V> = State(table: Table<V>, pcs: map<Tid, Pc<V>>, ptrs: map<Tid, Option<nat>>) {
    function PcOf(t: Tid): Pc<V> {
      if t in pcs then pcs[t] else Idle
    }

    function PtrOf(t: Tid): Option<nat> {
      if t in ptrs then ptrs[t] else None
    }
  }

  datatype Action<V> =
    | Invoke(t: Tid, op: Op<V>)
    | Advance(t: Tid)          // the next atomic step of the call, or its return
    | Load(t: Tid)             // between calls, the thread reads through its pointer
    | Assign(t: Tid, v: V)     // between calls, the thread writes through its pointer

  /** What an observer sees; Commit marks the step at which a call takes effect. */
  datatype Event<V> =
    | Called(t: Tid, op: Op<V>)
    | Commit(t: Tid, ok: bool)
    | Loaded(t: Tid, v: V)
    | Assigned(t: Tid, v: V)
    | Returned(t: Tid, ok: bool)

  /** The effect of one step of one thread: on the table, on its position and pointer, and what shows. */
  datatype Local<V> = Local(table: Table<V>, pc: Pc<V>, ptr: Option<nat>, events: seq<Event<V>>)

  // ---------------------------------------------------------------- the steps

  /** The next step of a call of thread `t` that stands at `pc` and has the pointer `ptr`. */
  function Next<V>(b: Table<V>, pc: Pc<V>, ptr: Option<nat>, t: Tid): Local<V> {
    var n := |b.owners|;
    match pc
    case Idle => Local(b, Idle, ptr, [])
    case SetFind(v, i) =>
      if i >= n then Local(b, SetClaim(v, 0), ptr, [])
      else if b.owners[i] == Some(t) then Local(b, SetStore(v, i, false), ptr, [])
      else Local(b, SetFind(v, i + 1), ptr, [])
    case SetClaim(v, i) =>
      if i >= n then Local(b, Answer(false), ptr, [Commit(t, false)])
      else if b.owners[i] == None then Local(b.(owners := b.owners[i := Some(t)]), SetStore(v, i, true), ptr, [])
      else Local(b, SetClaim(v, i + 1), ptr, [])
    case SetStore(v, i, _) =>
      Local(Write(b, i, v), Answer(true), ptr, [Commit(t, true)])
    case GetFind(i) =>
      if i >= n then Local(b, Answer(false), ptr, [Commit(t, false)])
      else if b.owners[i] == Some(t) then Local(b, Answer(true), Some(i), [Commit(t, true)])
      else Local(b, GetFind(i + 1), ptr, [])
    case EraseFind(i) =>
      if i >= n then Local(b, Answer(false), ptr, [Commit(t, false)])
      else if b.owners[i] == Some(t) then Local(b, EraseClear(i), ptr, [])
      else Local(b, EraseFind(i + 1), ptr, [])
    case EraseClear(i) =>
      Local(Write(b, i, b.zero), EraseFree(i), None, [Commit(t, true)])
    case EraseFree(i) =>
      if i < n && b.owners[i] == Some(t) then Local(b.(owners := b.owners[i := None]), Answer(true), ptr, [])
      else Local(b, Answer(false), ptr, [])
    case Answer(ok) => Local(b, Idle, ptr, [Returned(t, ok)])
  }

  function Write<V>(b: Table<V>, i: nat, v: V): Table<V> {
    if i < |b.values| then b.(values := b.values[i := v]) else b
  }

  function Entry<V>(op: Op<V>): Pc<V> {
    match op
    case Set(v) => SetFind(v, 0)
    case Get => GetFind(0)
    case Erase => EraseFind(0)
  }

  /** One action of thread `a.t`; an action that is not enabled leaves everything as it is. */
  function Act<V>(b: Table<V>, pc: Pc<V>, ptr: Option<nat>, a: Action<V>): Local<V> {
    match a
    case Invoke(t, op) => if pc.Idle? then Local(b, Entry(op), ptr, [Called(t, op)]) else Local(b, pc, ptr, [])
    case Advance(t) => Next(b, pc, ptr, t)
    case Load(t) =>
      if pc.Idle? && ptr.Some? && ptr.value < |b.values| then Local(b, pc, ptr, [Loaded(t, b.values[ptr.value])])
      else Local(b, pc, ptr, [])
    case Assign(t, v) =>
      if pc.Idle? && ptr.Some? then Local(Write(b, ptr.value, v), pc, ptr, [Assigned(t, v)])
      else Local(b, pc, ptr, [])
  }

  /** The step that action `a` makes in state `s`. */
  function StepOf<V>(s: State<V>, a: Action<V>): Local<V> {
    Act(s.table, s.PcOf(a.t), s.PtrOf(a.t), a)
  }

  function Apply<V>(s: State<V>, a: Action<V>): State<V> {
    var l := StepOf(s, a);
    State(l.table, s.pcs[a.t := l.pc], s.ptrs[a.t := l.ptr])
  }

  /** An empty table of `n` slots and no thread inside a call. */
  function Init<V>(n: nat, zero: V): State<V> {
    State(Table(seq(n, _ => None), seq(n, _ => zero), zero), map[], map[])
  }

  function Run<V>(n: nat, zero: V, sched: seq<Action<V>>): State<V> {
    if sched == [] then Init(n, zero)
    else Apply(Run(n, zero, sched[..|sched| - 1]), sched[|sched| - 1])
  }

  function Trace<V>(n: nat, zero: V, sched: seq<Action<V>>): seq<Event<V>> {
    if sched == [] then []
    else
      var k := |sched| - 1;
      var s := Run(n, zero, sched[..k]);
      Trace(n, zero, sched[..k]) + StepOf(s, sched[k]).events
  }

  // ---------------------------------------------------------------- the invariant

  predicate Owns<V>(b: Table<V>, t: Tid, i: nat) {
    i < |b.owners| && b.owners[i] == Some(t)
  }

  predicate OwnsNone<V>(b: Table<V>, t: Tid, upTo: nat) {
    forall j :: 0 <= j < upTo && j < |b.owners| ==> b.owners[j] != Some(t)
  }

  /** What the position of `t` promises about the slots of `t`. */
  predicate PcOk<V(==)>(b: Table<V>, t: Tid, pc: Pc<V>)
    requires |b.owners| == |b.values|
  {
    match pc
    case Idle => true
    case SetFind(_, i) => OwnsNone(b, t, i)
    case SetClaim(_, _) => OwnsNone(b, t, |b.owners|)
    case SetStore(_, i, claimed) => Owns(b, t, i) && (claimed ==> b.values[i] == b.zero)
    case GetFind(i) => OwnsNone(b, t, i)
    case EraseFind(i) => OwnsNone(b, t, i)
    case EraseClear(i) => Owns(b, t, i)
    case EraseFree(i) => Owns(b, t, i) && b.values[i] == b.zero
    case Answer(_) => true
  }

  /** A pointer from get points at a slot of the thread, until its erase has cleared the slot. */
  predicate ThreadOk<V(==)>(b: Table<V>, t: Tid, pc: Pc<V>, ptr: Option<nat>)
    requires |b.owners| == |b.values|
  {
    PcOk(b, t, pc) && (ptr.Some? ==> Owns(b, t, ptr.value) && !pc.EraseFree?)
  }

  /** No thread sits in two slots, and a free slot holds the default value. */
  ghost predicate TableOk<V>(b: Table<V>) {
    && |b.owners| == |b.values|
    && (forall i, j :: 0 <= i < j < |b.owners| && b.owners[i] == b.owners[j] ==> b.owners[i] == None)
    && (forall i :: 0 <= i < |b.owners| && b.owners[i] == None ==> b.values[i] == b.zero)
  }

  ghost predicate Inv<V>(s: State<V>) {
    TableOk(s.table) && forall t: Tid :: ThreadOk(s.table, t, s.PcOf(t), s.PtrOf(t))
  }

  /** What a step of another thread leaves to thread `u`: its slots and their values. */
  ghost predicate Undisturbed<V>(b: Table<V>, b': Table<V>, u: Tid) {
    && |b.owners| == |b.values| == |b'.owners| == |b'.values|
    && b'.zero == b.zero
    && (forall i :: 0 <= i < |b.owners| ==> (b'.owners[i] == Some(u) <==> b.owners[i] == Some(u)))
    && (forall i :: 0 <= i < |b.owners| && b.owners[i] == Some(u) ==> b'.values[i] == b.values[i])
  }

  lemma ActKeepsTable<V>(b: Table<V>, pc: Pc<V>, ptr: Option<nat>, a: Action<V>)
    requires TableOk(b) && ThreadOk(b, a.t, pc, ptr)
    ensures TableOk(Act(b, pc, ptr, a).table)
  {
    match a {
      case Advance(_) => match pc { case _ => }
      case _ =>
    }
  }

  lemma ActKeepsPointer<V>(b: Table<V>, pc: Pc<V>, ptr: Option<nat>, a: Action<V>)
    requires TableOk(b) && ThreadOk(b, a.t, pc, ptr)
    ensures var l := Act(b, pc, ptr, a);
            l.ptr.Some? ==> Owns(l.table, a.t, l.ptr.value) && !l.pc.EraseFree?
  {
    match a {
      case Advance(_) => match pc { case _ => }
      case _ =>
    }
  }

  lemma ActKeepsThread<V>(b: Table<V>, pc: Pc<V>, ptr: Option<nat>, a: Action<V>)
    requires TableOk(b) && ThreadOk(b, a.t, pc, ptr)
    ensures var l := Act(b, pc, ptr, a);
            TableOk(l.table) && ThreadOk(l.table, a.t, l.pc, l.ptr)
  {
    ActKeepsTable(b, pc, ptr, a);
    ActKeepsPointer(b, pc, ptr, a);
    assert |Act(b, pc, ptr, a).table.owners| == |Act(b, pc, ptr, a).table.values|;
    assert forall i :: 0 <= i < |b.owners| && b.owners[i] == None ==> b.values[i] == b.zero;
    hide TableOk;
    match a {
      case Advance(t) => NextKeepsPc(b, pc, ptr, t);
      case _ =>
    }
  }

  lemma NextKeepsPc<V>(b: Table<V>, pc: Pc<V>, ptr: Option<nat>, t: Tid)
    requires |b.owners| == |b.values| == |Next(b, pc, ptr, t).table.owners| == |Next(b, pc, ptr, t).table.values|
    requires forall i :: 0 <= i < |b.owners| && b.owners[i] == None ==> b.values[i] == b.zero
    requires PcOk(b, t, pc)
    ensures PcOk(Next(b, pc, ptr, t).table, t, Next(b, pc, ptr, t).pc)
  {
    match pc { case _ => }
  }

  lemma ActLeavesOthers<V>(b: Table<V>, pc: Pc<V>, ptr: Option<nat>, a: Action<V>, u: Tid)
    requires TableOk(b) && ThreadOk(b, a.t, pc, ptr) && u != a.t
    ensures Undisturbed(b, Act(b, pc, ptr, a).table, u)
  {
    match a {
      case Advance(_) => match pc { case _ => }
      case _ =>
    }
  }

  lemma ApplyKeepsInv<V>(s: State<V>, a: Action<V>)
    requires Inv(s)
    ensures Inv(Apply(s, a))
    ensures |Apply(s, a).table.owners| == |s.table.owners| && Apply(s, a).table.zero == s.table.zero
  {
    var b, pc, ptr, s' := s.table, s.PcOf(a.t), s.PtrOf(a.t), Apply(s, a);
    assert ThreadOk(b, a.t, pc, ptr);
    ActKeepsThread(b, pc, ptr, a);
    ActLeavesOthers(b, pc, ptr, a, a.t + 1);
    hide Act;
    forall u: Tid
      ensures ThreadOk(s'.table, u, s'.PcOf(u), s'.PtrOf(u))
    {
      if u != a.t {
        assert ThreadOk(b, u, s.PcOf(u), s.PtrOf(u));
        ActLeavesOthers(b, pc, ptr, a, u);
        UndisturbedThread(b, s'.table, u, s.PcOf(u), s.PtrOf(u));
      }
    }
  }

  lemma UndisturbedThread<V>(b: Table<V>, b': Table<V>, u: Tid, pc: Pc<V>, ptr: Option<nat>)
    requires |b.owners| == |b.values| && ThreadOk(b, u, pc, ptr) && Undisturbed(b, b', u)
    ensures ThreadOk(b', u, pc, ptr)
  {
  }

  /** Every state that any interleaving reaches satisfies the table invariant. */
  lemma {:induction false} EveryRunKeepsInv<V>(n: nat, zero: V, sched: seq<Action<V>>)
    ensures Inv(Run(n, zero, sched))
    ensures |Run(n, zero, sched).table.owners| == n && Run(n, zero, sched).table.zero == zero
  {
    if sched != [] {
      EveryRunKeepsInv(n, zero, sched[..|sched| - 1]);
      ApplyKeepsInv(Run(n, zero, sched[..|sched| - 1]), sched[|sched| - 1]);
    }
  }

  /** In every reachable state a step changes values[i] only if the stepping thread sits in threads[i]. */
  lemma OnlyOwnerWrites<V>(n: nat, zero: V, sched: seq<Action<V>>, a: Action<V>, i: nat)
    requires i < n
    ensures |Run(n, zero, sched).table.owners| == n == |Apply(Run(n, zero, sched), a).table.values|
    ensures var s := Run(n, zero, sched);
            |s.table.values| == n
            && (Apply(s, a).table.values[i] != s.table.values[i] ==> s.table.owners[i] == Some(a.t))
  {
    var s := Run(n, zero, sched);
    EveryRunKeepsInv(n, zero, sched);
    ApplyKeepsInv(s, a);
    assert ThreadOk(s.table, a.t, s.PcOf(a.t), s.PtrOf(a.t));
  }

  /** In every reachable state the releasing CAS of `erase` succeeds. */
  lemma ReleaseNeverFails<V>(n: nat, zero: V, sched: seq<Action<V>>, t: Tid)
    requires Run(n, zero, sched).PcOf(t).EraseFree?
    ensures Apply(Run(n, zero, sched), Advance(t)).PcOf(t) == Answer(true)
  {
    var s := Run(n, zero, sched);
    EveryRunKeepsInv(n, zero, sched);
    assert ThreadOk(s.table, t, s.PcOf(t), s.PtrOf(t));
  }

  // ---------------------------------------------------------------- refinement of a map

  /** The slot that a scan for `t` finds. */
  ghost function SlotOf(owners: seq<Option<Tid>>, t: Tid): (slot: Option<nat>)
    ensures slot.Some? ==> slot.value < |owners| && owners[slot.value] == Some(t)
    ensures slot.None? ==> forall j :: 0 <= j < |owners| ==> owners[j] != Some(t)
  {
    if owners == [] then None
    else if owners[|owners| - 1] == Some(t) then Some(|owners| - 1)
    else SlotOf(owners[..|owners| - 1], t)
  }

  /** A claimed slot before its first store, or a cleared slot before its release, counts as empty. */
  ghost predicate Pending<V>(pc: Pc<V>) {
    pc.EraseFree? || (pc.SetStore? && pc.claimed)
  }

  /** The value that the table holds for `t`, if any: the abstract map, looked up at `t`. */
  ghost function View<V>(b: Table<V>, pc: Pc<V>, t: Tid): Option<V>
    requires |b.owners| == |b.values|
  {
    if Pending(pc) || SlotOf(b.owners, t).None? then None
    else Some(b.values[SlotOf(b.owners, t).value])
  }

  /** The life of one call: not running, called, answered, or a breach of the specification. */
  datatype Phase<V> = Quiet | Calling(op: Op<V>) | Answered(ok: bool) | Wrong

  /**
    The specification that one thread sees: a cell that only this thread changes, and whether the
    thread has a pointer to it, from a get that no erase has followed.
   */
  datatype Spec<V> = Spec(cell: Option<V>, phase: Phase<V>, pointer: bool)

  /** One event of the thread, checked against the specification. */
  ghost function SpecStep<V>(spec: Spec<V>, e: Event<V>): Spec<V> {
    match e
    case Called(_, op) =>
      if spec.phase.Quiet? then spec.(phase := Calling(op)) else spec.(phase := Wrong)
    case Commit(_, ok) =>
      if !spec.phase.Calling? then spec.(phase := Wrong)
      else (
        match spec.phase.op
        case Set(v) =>
          if ok then spec.(cell := Some(v), phase := Answered(true))
          else if spec.cell == None then spec.(phase := Answered(false))
          else spec.(phase := Wrong)
        case Get =>
          if ok == spec.cell.Some? then spec.(phase := Answered(ok), pointer := spec.pointer || ok)
          else spec.(phase := Wrong)
        case Erase =>
          if ok == spec.cell.Some? then Spec(None, Answered(ok), spec.pointer && !ok)
          else spec.(phase := Wrong)
      )
    case Loaded(_, v) =>
      if spec.phase.Quiet? && spec.pointer && spec.cell == Some(v) then spec else spec.(phase := Wrong)
    case Assigned(_, v) =>
      if spec.phase.Quiet? && spec.pointer then spec.(cell := Some(v)) else spec.(phase := Wrong)
    case Returned(_, ok) =>
      if spec.phase == Answered(ok) then spec.(phase := Quiet) else spec.(phase := Wrong)
  }

  /** What the events of thread `t` alone say its cell holds. */
  ghost function SpecOf<V>(trace: seq<Event<V>>, t: Tid): Spec<V> {
    if trace == [] then Spec(None, Quiet, false)
    else
      var before := SpecOf(trace[..|trace| - 1], t);
      var e := trace[|trace| - 1];
      if e.t == t then SpecStep(before, e) else before
  }

  /** How the position inside a call matches the phase of the specification. */
  ghost predicate InPhase<V>(pc: Pc<V>, phase: Phase<V>) {
    match pc
    case Idle => phase.Quiet?
    case SetFind(v, _) => phase == Calling(Set(v))
    case SetClaim(v, _) => phase == Calling(Set(v))
    case SetStore(v, _, _) => phase == Calling(Set(v))
    case GetFind(_) => phase == Calling(Get)
    case EraseFind(_) => phase == Calling(Erase)
    case EraseClear(_) => phase == Calling(Erase)
    case EraseFree(_) => phase == Answered(true)
    case Answer(ok) => phase == Answered(ok)
  }

  ghost predicate Matches<V>(b: Table<V>, pc: Pc<V>, ptr: Option<nat>, t: Tid, spec: Spec<V>)
    requires |b.owners| == |b.values|
  {
    InPhase(pc, spec.phase) && View(b, pc, t) == spec.cell && (spec.pointer <==> ptr.Some?)
  }

  ghost function After<V>(spec: Spec<V>, events: seq<Event<V>>): Spec<V> {
    if events == [] then spec else SpecStep(spec, events[0])
  }

  lemma ViewOfOwner<V>(b: Table<V>, pc: Pc<V>, t: Tid, i: nat)
    requires TableOk(b) && Owns(b, t, i) && !Pending(pc)
    ensures View(b, pc, t) == Some(b.values[i])
  {
  }

  /** The step of a call that only scans: found or exhausted, as the view of the table says. */
  lemma ScanSeesView<V>(b: Table<V>, pc: Pc<V>, t: Tid, i: nat)
    requires TableOk(b) && OwnsNone(b, t, i) && !Pending(pc)
    ensures i >= |b.owners| ==> View(b, pc, t) == None
    ensures i < |b.owners| && b.owners[i] == Some(t) ==> View(b, pc, t) == Some(b.values[i])
  {
  }

  lemma ActMatches<V>(b: Table<V>, pc: Pc<V>, ptr: Option<nat>, a: Action<V>, spec: Spec<V>)
    requires TableOk(b) && ThreadOk(b, a.t, pc, ptr) && Matches(b, pc, ptr, a.t, spec)
    ensures var l := Act(b, pc, ptr, a);
            && |l.events| <= 1 && TableOk(l.table)
            && Matches(l.table, l.pc, l.ptr, a.t, After(spec, l.events))
  {
    var t, l := a.t, Act(b, pc, ptr, a);
    ActKeepsThread(b, pc, ptr, a);
    match a {
      case Invoke(_, op) =>
      case Advance(_) =>
        if pc.SetFind? || pc.SetClaim? || pc.SetStore? { SetMatches(b, pc, ptr, t, spec); }
        else if pc.GetFind? { ScanSeesView(b, pc, t, pc.i); }
        else if pc.EraseFind? || pc.EraseClear? || pc.EraseFree? { EraseMatches(b, pc, ptr, t, spec); }
      case Load(_) => if pc.Idle? && ptr.Some? { ViewOfOwner(b, pc, t, ptr.value); }
      case Assign(_, v) => if pc.Idle? && ptr.Some? { ViewOfOwner(l.table, pc, t, ptr.value); }
    }
  }

  lemma SetMatches<V>(b: Table<V>, pc: Pc<V>, ptr: Option<nat>, t: Tid, spec: Spec<V>)
    requires TableOk(b) && ThreadOk(b, t, pc, ptr) && Matches(b, pc, ptr, t, spec)
    requires pc.SetFind? || pc.SetClaim? || pc.SetStore?
    ensures var l := Next(b, pc, ptr, t);
            && |l.events| <= 1 && TableOk(l.table)
            && Matches(l.table, l.pc, l.ptr, t, After(spec, l.events))
  {
    var l := Next(b, pc, ptr, t);
    ActKeepsThread(b, pc, ptr, Advance(t));
    match pc {
      case SetFind(v, i) => ScanSeesView(b, pc, t, i);
      case SetClaim(v, i) => ScanSeesView(b, pc, t, |b.owners|);
      case SetStore(v, i, _) => ViewOfOwner(l.table, l.pc, t, i);
    }
  }

  lemma EraseMatches<V>(b: Table<V>, pc: Pc<V>, ptr: Option<nat>, t: Tid, spec: Spec<V>)
    requires TableOk(b) && ThreadOk(b, t, pc, ptr) && Matches(b, pc, ptr, t, spec)
    requires pc.EraseFind? || pc.EraseClear? || pc.EraseFree?
    ensures var l := Next(b, pc, ptr, t);
            && |l.events| <= 1 && TableOk(l.table)
            && Matches(l.table, l.pc, l.ptr, t, After(spec, l.events))
  {
    var l := Next(b, pc, ptr, t);
    ActKeepsThread(b, pc, ptr, Advance(t));
    match pc {
      case EraseFind(i) => ScanSeesView(b, pc, t, i);
      case EraseClear(i) => ViewOfOwner(b, pc, t, i);
      case EraseFree(i) => assert OwnsNone(l.table, t, |l.table.owners|);
    }
  }

  lemma UndisturbedView<V>(b: Table<V>, b': Table<V>, pc: Pc<V>, u: Tid)
    requires TableOk(b) && TableOk(b') && Undisturbed(b, b', u)
    ensures View(b', pc, u) == View(b, pc, u)
  {
  }

  /** The table, the position and the pointer of `t` are what the events of `t` say. */
  ghost predicate Refines<V>(s: State<V>, spec: Spec<V>, t: Tid) {
    |s.table.owners| == |s.table.values| && Matches(s.table, s.PcOf(t), s.PtrOf(t), t, spec)
  }

  lemma ActShows<V>(b: Table<V>, pc: Pc<V>, ptr: Option<nat>, a: Action<V>)
    ensures |Act(b, pc, ptr, a).events| <= 1 && forall e :: e in Act(b, pc, ptr, a).events ==> e.t == a.t
  {
  }

  lemma ApplyRefines<V>(s: State<V>, a: Action<V>, tr: seq<Event<V>>, t: Tid)
    requires Inv(s) && Refines(s, SpecOf(tr, t), t)
    ensures Refines(Apply(s, a), SpecOf(tr + StepOf(s, a).events, t), t)
  {
    hide Act, SpecOf, View, InPhase, PcOk;
    var b, pc, ptr := s.table, s.PcOf(a.t), s.PtrOf(a.t);
    var l := Act(b, pc, ptr, a);
    assert ThreadOk(b, a.t, pc, ptr);
    ActShows(b, pc, ptr, a);
    if a.t == t {
      ActMatches(b, pc, ptr, a, SpecOf(tr, t));
      EventsOfOne(tr, l.events, t);
    } else {
      ActKeepsTable(b, pc, ptr, a);
      ActLeavesOthers(b, pc, ptr, a, t);
      UndisturbedView(b, l.table, s.PcOf(t), t);
      EventsOfOthers(tr, l.events, t);
    }
  }

  /**
    The table refines a map from threads to values. In every interleaving, what a thread sees
    is what its own events say: each call takes effect once, between its call and its return,
    with the answer the map gives; `get` finds exactly the last value set and not erased since,
    and its pointer reads and writes that value, across later calls, until the thread's own erase.
   */
  lemma {:induction false} RefinesMap<V>(n: nat, zero: V, sched: seq<Action<V>>, t: Tid)
    ensures SpecOf(Trace(n, zero, sched), t).phase != Wrong
    ensures Refines(Run(n, zero, sched), SpecOf(Trace(n, zero, sched), t), t)
  {
    hide Refines, Inv, Apply, StepOf, SpecOf;
    if sched == [] {
      EmptyRefines(n, zero, t);
    } else {
      var k := |sched| - 1;
      RefinesMap(n, zero, sched[..k], t);
      EveryRunKeepsInv(n, zero, sched[..k]);
      ApplyRefines(Run(n, zero, sched[..k]), sched[k], Trace(n, zero, sched[..k]), t);
    }
    RefiningIsRight(Run(n, zero, sched), SpecOf(Trace(n, zero, sched), t), t);
  }

  lemma EmptyRefines<V>(n: nat, zero: V, t: Tid)
    ensures Refines(Init(n, zero), SpecOf([], t), t)
  {
  }

  lemma RefiningIsRight<V>(s: State<V>, spec: Spec<V>, t: Tid)
    requires Refines(s, spec, t)
    ensures spec.phase != Wrong
  {
  }

  lemma EventsOfOne<V>(tr: seq<Event<V>>, es: seq<Event<V>>, t: Tid)
    requires |es| <= 1 && forall e :: e in es ==> e.t == t
    ensures SpecOf(tr + es, t) == After(SpecOf(tr, t), es)
  {
    if es == [] { assert tr + es == tr; } else { assert (tr + es)[..|tr|] == tr; }
  }

  lemma EventsOfOthers<V>(tr: seq<Event<V>>, es: seq<Event<V>>, t: Tid)
    requires |es| <= 1 && forall e :: e in es ==> e.t != t
    ensures SpecOf(tr + es, t) == SpecOf(tr, t)
  {
    if es == [] { assert tr + es == tr; } else { assert (tr + es)[..|tr|] == tr; }
  }

  // ---------------------------------------------------------------- every call returns

  function Minus(n: nat, i: nat): nat {
    if i < n then n - i else 0
  }

  /** At most how many steps of its own a thread at `pc` still takes until its call has returned. */
  function StepsLeft<V>(pc: Pc<V>, n: nat): nat {
    match pc
    case Idle => 0
    case SetFind(_, i) => Minus(n, i) + n + 3
    case SetClaim(_, i) => Minus(n, i) + 2
    case SetStore(_, _, _) => 2
    case GetFind(i) => Minus(n, i) + 2
    case EraseFind(i) => Minus(n, i) + 3
    case EraseClear(_) => 3
    case EraseFree(_) => 2
    case Answer(_) => 1
  }

  lemma OneStepLess<V>(b: Table<V>, pc: Pc<V>, ptr: Option<nat>, t: Tid)
    requires !pc.Idle?
    ensures StepsLeft(Next(b, pc, ptr, t).pc, |b.owners|) < StepsLeft(pc, |b.owners|)
  {
    match pc { case _ => }
  }

  /** How many of the actions are steps of thread `t`. */
  function OwnSteps<V(==)>(acts: seq<Action<V>>, t: Tid): nat {
    if acts == [] then 0 else (if acts[0] == Advance(t) then 1 else 0) + OwnSteps(acts[1..], t)
  }

  lemma {:induction false} ReturnsInTime<V>(n: nat, zero: V, sched: seq<Action<V>>, more: seq<Action<V>>, t: Tid)
    returns (k: nat)
    requires StepsLeft(Run(n, zero, sched).PcOf(t), n) <= OwnSteps(more, t)
    ensures k <= |more| && Run(n, zero, sched + more[..k]).PcOf(t) == Idle
    decreases |more|
  {
    var s := Run(n, zero, sched);
    EveryRunKeepsInv(n, zero, sched);
    if s.PcOf(t) == Idle {
      k := 0;
      assert sched + more[..0] == sched;
    } else {
      var next := sched + [more[0]];
      assert next[..|sched|] == sched;
      if more[0] == Advance(t) { OneStepLess(s.table, s.PcOf(t), s.PtrOf(t), t); }
      var k' := ReturnsInTime(n, zero, next, more[1..], t);
      k := k' + 1;
      assert sched + more[..k] == next + more[1..][..k'];
    }
  }

  /** Every call of a table of n slots returns within 2n + 3 steps of its thread, whatever the others do. */
  lemma EveryCallReturns<V>(n: nat, zero: V, sched: seq<Action<V>>, more: seq<Action<V>>, t: Tid) returns (k: nat)
    requires OwnSteps(more, t) >= 2 * n + 3
    ensures k <= |more| && Run(n, zero, sched + more[..k]).PcOf(t) == Idle
  {
    k := ReturnsInTime(n, zero, sched, more, t);
  }

  // ---------------------------------------------------------------- why set fails

  /** In the run so far, the CAS of `t` on slot `j`, at action `k`, found another thread there. */
  ghost predicate SawOther<V>(n: nat, zero: V, sched: seq<Action<V>>, t: Tid, v: V, j: nat, k: nat) {
    && k < |sched| && sched[k] == Advance(t)
    && var s := Run(n, zero, sched[..k]);
       && s.PcOf(t) == SetClaim(v, j)
       && j < |s.table.owners| && s.table.owners[j].Some? && s.table.owners[j].value != t
  }

  /** Thread `t` is in the claiming loop of its set of `v`. */
  ghost predicate Claims<V>(s: State<V>, t: Tid, v: V) {
    s.PcOf(t).SetClaim? && s.PcOf(t).arg == v
  }

  /** From action `from` on, thread `t` has not left the claiming loop of its current call. */
  ghost predicate ClaimingSince<V>(n: nat, zero: V, sched: seq<Action<V>>, t: Tid, v: V, from: nat) {
    from <= |sched| && forall k :: from <= k <= |sched| ==> Claims(Run(n, zero, sched[..k]), t, v)
  }

  /** The CASes of the current call of `t` on the slots below `upTo` each found another thread, at the actions `at`. */
  ghost predicate SawOthers<V>(n: nat, zero: V, sched: seq<Action<V>>, t: Tid, v: V, upTo: nat, at: seq<nat>) {
    && |at| == upTo
    && (forall j :: 0 <= j < upTo ==> SawOther(n, zero, sched, t, v, j, at[j]))
    && (forall i, j :: 0 <= i < j < upTo ==> at[i] < at[j])
    && (upTo > 0 ==> ClaimingSince(n, zero, sched, t, v, at[0]))
  }

  lemma SawOtherLater<V>(n: nat, zero: V, sched: seq<Action<V>>, more: seq<Action<V>>, t: Tid, v: V, j: nat, k: nat)
    requires SawOther(n, zero, sched, t, v, j, k)
    ensures SawOther(n, zero, sched + more, t, v, j, k)
  {
    assert (sched + more)[..k] == sched[..k];
  }

  lemma StillClaiming<V>(n: nat, zero: V, sched: seq<Action<V>>, a: Action<V>, t: Tid, v: V, from: nat)
    requires ClaimingSince(n, zero, sched, t, v, from) && Claims(Run(n, zero, sched + [a]), t, v)
    ensures ClaimingSince(n, zero, sched + [a], t, v, from)
  {
    hide Run, Claims;
    var more := sched + [a];
    forall k | from <= k <= |more|
      ensures Claims(Run(n, zero, more[..k]), t, v)
    {
      if k <= |sched| { assert more[..k] == sched[..k]; } else { assert more[..k] == more; }
    }
  }

  /** A step of the run that leaves the call where it was. */
  lemma SawOthersLater<V>(n: nat, zero: V, sched: seq<Action<V>>, a: Action<V>, t: Tid, v: V, upTo: nat, at: seq<nat>)
    requires SawOthers(n, zero, sched, t, v, upTo, at) && Claims(Run(n, zero, sched + [a]), t, v)
    ensures SawOthers(n, zero, sched + [a], t, v, upTo, at)
  {
    hide SawOther, Claims, ClaimingSince;
    forall j | 0 <= j < upTo
      ensures SawOther(n, zero, sched + [a], t, v, j, at[j])
    {
      SawOtherLater(n, zero, sched, [a], t, v, j, at[j]);
    }
    if upTo > 0 { StillClaiming(n, zero, sched, a, t, v, at[0]); }
  }

  /** The step that brings a thread to slot `i` of the claiming loop: a CAS that found another owner. */
  lemma StepToClaim<V>(b: Table<V>, pc: Pc<V>, ptr: Option<nat>, a: Action<V>, v: V, i: nat)
    requires TableOk(b) && ThreadOk(b, a.t, pc, ptr) && Act(b, pc, ptr, a).pc == SetClaim(v, i)
    ensures || pc == SetClaim(v, i) || (i == 0 && pc.SetFind?)
            || (i > 0 && pc == SetClaim(v, i - 1) && a.Advance? && i <= |b.owners|
                && b.owners[i - 1].Some? && b.owners[i - 1].value != a.t)
  {
    match a {
      case Advance(_) => match pc { case _ => }
      case _ =>
    }
  }

  lemma CameToClaim<V>(s: State<V>, a: Action<V>, t: Tid, v: V, i: nat)
    requires Inv(s) && Apply(s, a).PcOf(t) == SetClaim(v, i)
    ensures || s.PcOf(t) == SetClaim(v, i) || i == 0
            || (s.PcOf(t) == SetClaim(v, i - 1) && a == Advance(t) && i <= |s.table.owners|
                && s.table.owners[i - 1].Some? && s.table.owners[i - 1].value != t)
  {
    hide Act;
    assert ThreadOk(s.table, t, s.PcOf(t), s.PtrOf(t));
    if a.t == t { StepToClaim(s.table, s.PcOf(t), s.PtrOf(t), a, v, i); }
  }

  /** A thread at slot `i` of the claiming loop has, in this call, met another owner on each slot before. */
  lemma {:induction false} ClaimingSawOthers<V>(n: nat, zero: V, sched: seq<Action<V>>, t: Tid, v: V, i: nat)
    returns (at: seq<nat>)
    requires Run(n, zero, sched).PcOf(t) == SetClaim(v, i)
    ensures i <= n && SawOthers(n, zero, sched, t, v, i, at)
  {
    hide SawOther, SawOthers, Inv, ThreadOk, Act;
    at := [];
    if sched == [] {
      assert false;
    } else {
      var k := |sched| - 1;
      var s, a := Run(n, zero, sched[..k]), sched[k];
      assert sched[..k] + [a] == sched;
      EveryRunKeepsInv(n, zero, sched[..k]);
      CameToClaim(s, a, t, v, i);
      if s.PcOf(t) == SetClaim(v, i) {
        at := ClaimingSawOthers(n, zero, sched[..k], t, v, i);
        SawOthersLater(n, zero, sched[..k], a, t, v, i, at);
      } else if i > 0 {
        at := ClaimingSawOthers(n, zero, sched[..k], t, v, i - 1);
        SawOneMore(n, zero, sched[..k], t, v, i, at);
        at := at + [k];
      } else {
        SawNoneYet(n, zero, sched, t, v);
      }
    }
  }

  lemma SawNoneYet<V>(n: nat, zero: V, sched: seq<Action<V>>, t: Tid, v: V)
    ensures SawOthers(n, zero, sched, t, v, 0, [])
  {
  }

  lemma SawOneMore<V>(n: nat, zero: V, sched: seq<Action<V>>, t: Tid, v: V, i: nat, at: seq<nat>)
    requires i > 0 && SawOthers(n, zero, sched, t, v, i - 1, at)
    requires var s := Run(n, zero, sched);
             && s.PcOf(t) == SetClaim(v, i - 1)
             && i <= |s.table.owners| && s.table.owners[i - 1].Some? && s.table.owners[i - 1].value != t
    requires Claims(Run(n, zero, sched + [Advance(t)]), t, v)
    ensures SawOthers(n, zero, sched + [Advance(t)], t, v, i, at + [|sched|])
  {
    hide Run, ClaimingSince;
    var k, more := |sched|, sched + [Advance(t)];
    SawOthersLater(n, zero, sched, Advance(t), t, v, i - 1, at);
    assert more[..k] == sched;
    assert SawOther(n, zero, more, t, v, i - 1, k);
    forall j | 0 <= j < i - 1
      ensures at[j] < k
    {
      assert SawOther(n, zero, sched, t, v, j, at[j]);
    }
    if i == 1 { ClaimsHere(n, zero, sched, t, v, k); }
  }

  lemma ClaimsHere<V>(n: nat, zero: V, sched: seq<Action<V>>, t: Tid, v: V, k: nat)
    requires k == |sched| && Claims(Run(n, zero, sched), t, v) && Claims(Run(n, zero, sched + [Advance(t)]), t, v)
    ensures ClaimingSince(n, zero, sched + [Advance(t)], t, v, k)
  {
    assert sched[..k] == sched;
    StillClaiming(n, zero, sched, Advance(t), t, v, k);
  }

  /** The next step of thread `t` makes its set of `v` fail. */
  ghost predicate Fails<V>(n: nat, zero: V, sched: seq<Action<V>>, t: Tid, v: V) {
    Claims(Run(n, zero, sched), t, v) && Apply(Run(n, zero, sched), Advance(t)).PcOf(t) == Answer(false)
  }

  /** `set` fails only when the CASes of this call met another owner on each of the n slots, in order. */
  lemma FailedSetSawEverySlotTaken<V>(n: nat, zero: V, sched: seq<Action<V>>, t: Tid, v: V) returns (at: seq<nat>)
    requires Fails(n, zero, sched, t, v)
    ensures SawOthers(n, zero, sched, t, v, n, at)
  {
    hide SawOthers, Inv;
    EveryRunKeepsInv(n, zero, sched);
    at := ClaimingSawOthers(n, zero, sched, t, v, Run(n, zero, sched).PcOf(t).i);
  }

  // ---------------------------------------------------------------- when failure means full

  ghost predicate HasFreeSlot<V>(s: State<V>) {
    exists j :: 0 <= j < |s.table.owners| && s.table.owners[j] == None
  }

  /** At action `k`, inside the claiming loop of the failing call, every slot is taken. */
  ghost predicate MetFull<V>(n: nat, zero: V, sched: seq<Action<V>>, t: Tid, v: V, k: nat) {
    ClaimingSince(n, zero, sched, t, v, k) && !HasFreeSlot(Run(n, zero, sched[..k]))
  }

  /** Every set that fails had the table full at some moment of the call. */
  ghost predicate FailureMeansFull<V(!new)>(n: nat, zero: V) {
    forall sched, t, v :: Fails(n, zero, sched, t, v) ==> exists k: nat :: MetFull(n, zero, sched, t, v, k)
  }

  /** Exactly tables of at most one slot fail only when they are full. */
  lemma FailureMeansFullIff<V(!new)>(n: nat, zero: V)
    ensures FailureMeansFull(n, zero) <==> n <= 1
  {
    if n <= 1 {
      forall sched, t, v | Fails(n, zero, sched, t, v)
        ensures exists k: nat :: MetFull(n, zero, sched, t, v, k)
      {
        var k := SmallTableWasFull(n, zero, sched, t, v);
      }
    } else {
      var sched := SetFailsBesideAFreeSlot(n, zero);
      FreeIsNotFull(n, zero, sched, n + 1, zero);
      assert Fails(n, zero, sched, n + 1, zero);
    }
  }

  lemma FreeIsNotFull<V>(n: nat, zero: V, sched: seq<Action<V>>, t: Tid, v: V)
    requires AlwaysFree(n, zero, sched)
    ensures forall k: nat :: !MetFull(n, zero, sched, t, v, k)
  {
    hide Run;
  }

  lemma SmallTableWasFull<V>(n: nat, zero: V, sched: seq<Action<V>>, t: Tid, v: V) returns (k: nat)
    requires n <= 1 && Fails(n, zero, sched, t, v)
    ensures MetFull(n, zero, sched, t, v, k)
  {
    hide Inv, Apply;
    var at := FailedSetSawEverySlotTaken(n, zero, sched, t, v);
    if n == 0 {
      k := |sched|;
      assert sched[..k] == sched;
    } else {
      k := at[0];
      assert SawOther(n, zero, sched, t, v, 0, k);
    }
    EveryRunKeepsInv(n, zero, sched[..k]);
  }

  /** In every state of the run some slot is free. */
  ghost predicate AlwaysFree<V>(n: nat, zero: V, sched: seq<Action<V>>) {
    forall k :: 0 <= k <= |sched| ==> HasFreeSlot(Run(n, zero, sched[..k]))
  }

  /** One more action, after which slot `free` is free. */
  lemma Go<V>(n: nat, zero: V, sched: seq<Action<V>>, a: Action<V>, free: nat) returns (longer: seq<Action<V>>)
    requires AlwaysFree(n, zero, sched)
    requires free < |Apply(Run(n, zero, sched), a).table.owners|
    requires Apply(Run(n, zero, sched), a).table.owners[free] == None
    ensures longer == sched + [a] && AlwaysFree(n, zero, longer)
    ensures Run(n, zero, longer) == Apply(Run(n, zero, sched), a)
  {
    longer := sched + [a];
    assert longer[..|sched|] == sched;
    forall k | 0 <= k <= |longer|
      ensures HasFreeSlot(Run(n, zero, longer[..k]))
    {
      if k <= |sched| { assert longer[..k] == sched[..k]; } else { assert longer[..k] == longer; }
    }
  }

  /** From `s` to `s'` only the position of thread `t` has changed. */
  ghost predicate OnlyMoved<V>(s: State<V>, s': State<V>, t: Tid) {
    s'.table == s.table && forall u: Tid :: u != t ==> s'.PcOf(u) == s.PcOf(u)
  }

  /** The n slots hold `owners`, and slot `free` is one of them and free. */
  ghost predicate Slots<V>(s: State<V>, n: nat, owners: seq<Option<Tid>>, free: nat) {
    s.table.owners == owners && |owners| == n == |s.table.values| && free < n && owners[free] == None
  }

  /** Thread `t`, which has no slot, scans to the end and begins to claim. */
  lemma {:induction false} ScansOn<V>(n: nat, zero: V, s0: seq<Action<V>>, t: Tid, v: V, i: nat, free: nat)
    returns (sched: seq<Action<V>>)
    requires AlwaysFree(n, zero, s0) && i <= n && Run(n, zero, s0).PcOf(t) == SetFind(v, i)
    requires Slots(Run(n, zero, s0), n, Run(n, zero, s0).table.owners, free)
    requires forall j :: 0 <= j < n ==> Run(n, zero, s0).table.owners[j] != Some(t)
    ensures AlwaysFree(n, zero, sched) && OnlyMoved(Run(n, zero, s0), Run(n, zero, sched), t)
    ensures Run(n, zero, sched).PcOf(t) == SetClaim(v, 0)
    decreases n - i
  {
    hide AlwaysFree, Run;
    sched := Go(n, zero, s0, Advance(t), free);
    if i < n { sched := ScansOn(n, zero, sched, t, v, i + 1, free); }
  }

  /** Thread `t` goes on to slot `k`, over slots that are taken. */
  lemma {:induction false} ClaimsOn<V>(n: nat, zero: V, s0: seq<Action<V>>, t: Tid, v: V, i: nat, k: nat, free: nat)
    returns (sched: seq<Action<V>>)
    requires AlwaysFree(n, zero, s0) && i <= k <= n && Run(n, zero, s0).PcOf(t) == SetClaim(v, i)
    requires Slots(Run(n, zero, s0), n, Run(n, zero, s0).table.owners, free)
    requires forall j :: i <= j < k ==> Run(n, zero, s0).table.owners[j] != None
    ensures AlwaysFree(n, zero, sched) && OnlyMoved(Run(n, zero, s0), Run(n, zero, sched), t)
    ensures Run(n, zero, sched).PcOf(t) == SetClaim(v, k)
    decreases k - i
  {
    hide AlwaysFree, Run;
    sched := s0;
    if i < k {
      sched := Go(n, zero, s0, Advance(t), free);
      sched := ClaimsOn(n, zero, sched, t, v, i + 1, k, free);
    }
  }

  /** Thread `t` calls set and comes to slot `k`, over slots that are taken. */
  lemma ComesTo<V>(n: nat, zero: V, s0: seq<Action<V>>, t: Tid, v: V, k: nat, free: nat) returns (sched: seq<Action<V>>)
    requires AlwaysFree(n, zero, s0) && k <= n && Run(n, zero, s0).PcOf(t) == Idle
    requires Slots(Run(n, zero, s0), n, Run(n, zero, s0).table.owners, free)
    requires forall j :: 0 <= j < n ==> Run(n, zero, s0).table.owners[j] != Some(t)
    requires forall j :: 0 <= j < k ==> Run(n, zero, s0).table.owners[j] != None
    ensures AlwaysFree(n, zero, sched) && OnlyMoved(Run(n, zero, s0), Run(n, zero, sched), t)
    ensures Run(n, zero, sched).PcOf(t) == SetClaim(v, k)
  {
    hide AlwaysFree, Run;
    sched := Go(n, zero, s0, Invoke(t, Set(v)), free);
    sched := ScansOn(n, zero, sched, t, v, 0, free);
    sched := ClaimsOn(n, zero, sched, t, v, 0, k, free);
  }

  /** The owners when thread j + 1 has slot j, for the first `m` slots. */
  ghost function FirstTaken(n: nat, m: nat): (owners: seq<Option<Tid>>)
    ensures |owners| == n
  {
    seq(n, j => if j < m then Some(j + 1) else None)
  }

  /** No thread is inside a call. */
  ghost predicate AllIdle<V>(s: State<V>) {
    forall u: Tid :: s.PcOf(u) == Idle
  }

  /** The first `m` slots are taken, by as many threads. */
  lemma {:induction false} Fill<V>(n: nat, zero: V, m: nat) returns (sched: seq<Action<V>>)
    requires m < n
    ensures AlwaysFree(n, zero, sched) && Slots(Run(n, zero, sched), n, FirstTaken(n, m), n - 1)
    ensures AllIdle(Run(n, zero, sched))
  {
    if m == 0 {
      sched := [];
      EmptyIsFree(n, zero);
    } else {
      sched := Fill(n, zero, m - 1);
      sched := Takes(n, zero, sched, m);
    }
  }

  lemma EmptyIsFree<V>(n: nat, zero: V)
    requires n > 0
    ensures AlwaysFree(n, zero, []) && Slots(Run(n, zero, []), n, FirstTaken(n, 0), n - 1)
    ensures AllIdle(Run<V>(n, zero, []))
  {
    var owners := Init(n, zero).table.owners;
    assert owners == FirstTaken(n, 0);
    forall k | 0 <= k <= 0
      ensures HasFreeSlot(Run(n, zero, [][..k]))
    {
      assert owners[n - 1] == None;
    }
  }

  /** Thread `m` takes slot m - 1, the first that is free. */
  lemma Takes<V>(n: nat, zero: V, s0: seq<Action<V>>, m: nat) returns (sched: seq<Action<V>>)
    requires 0 < m < n && AlwaysFree(n, zero, s0) && Slots(Run(n, zero, s0), n, FirstTaken(n, m - 1), n - 1)
    requires AllIdle(Run(n, zero, s0))
    ensures AlwaysFree(n, zero, sched) && Slots(Run(n, zero, sched), n, FirstTaken(n, m), n - 1)
    ensures AllIdle(Run(n, zero, sched))
  {
    NextTaken(n, m);
    hide AlwaysFree, Run, FirstTaken;
    sched := ComesTo(n, zero, s0, m, zero, m - 1, n - 1);
    sched := TakesHere(n, zero, sched, m, m - 1, FirstTaken(n, m - 1), n - 1);
  }

  lemma NextTaken(n: nat, m: nat)
    requires 0 < m < n
    ensures FirstTaken(n, m) == FirstTaken(n, m - 1)[m - 1 := Some(m)]
    ensures FirstTaken(n, m - 1)[m - 1] == None == FirstTaken(n, m - 1)[n - 1]
    ensures var owners := FirstTaken(n, m - 1);
            && (forall j :: 0 <= j < n ==> owners[j] != Some(m))
            && (forall j :: 0 <= j < m - 1 ==> owners[j] != None)
  {
  }

  lemma TakesHere<V>(n: nat, zero: V, s0: seq<Action<V>>, t: Tid, k: nat, owners: seq<Option<Tid>>, free: nat)
    returns (sched: seq<Action<V>>)
    requires AlwaysFree(n, zero, s0) && Slots(Run(n, zero, s0), n, owners, free)
    requires k < n && k != free && owners[k] == None && Run(n, zero, s0).PcOf(t) == SetClaim(zero, k)
    ensures AlwaysFree(n, zero, sched) && Slots(Run(n, zero, sched), n, owners[k := Some(t)], free)
    ensures Run(n, zero, sched).PcOf(t) == Idle
    ensures forall u: Tid :: u != t ==> Run(n, zero, sched).PcOf(u) == Run(n, zero, s0).PcOf(u)
  {
    hide AlwaysFree, Run;
    sched := Go(n, zero, s0, Advance(t), free);
    sched := Go(n, zero, sched, Advance(t), free);
    sched := Go(n, zero, sched, Advance(t), free);
  }

  /** Thread 1 gives slot 0 up again. */
  lemma FirstErases<V>(n: nat, zero: V, s0: seq<Action<V>>) returns (sched: seq<Action<V>>)
    requires n >= 2 && AlwaysFree(n, zero, s0) && Slots(Run(n, zero, s0), n, FirstTaken(n, n - 1), n - 1)
    requires Run(n, zero, s0).PcOf(1) == Idle
    ensures AlwaysFree(n, zero, sched)
    ensures Slots(Run(n, zero, sched), n, FirstTaken(n, n - 1)[0 := None], n - 1)
    ensures forall u: Tid :: u != 1 ==> Run(n, zero, sched).PcOf(u) == Run(n, zero, s0).PcOf(u)
  {
    hide AlwaysFree, Run;
    sched := Go(n, zero, s0, Invoke(1, Erase), n - 1);
    sched := Go(n, zero, sched, Advance(1), n - 1);
    sched := FirstReleases(n, zero, sched, FirstTaken(n, n - 1));
  }

  lemma FirstReleases<V>(n: nat, zero: V, s0: seq<Action<V>>, owners: seq<Option<Tid>>) returns (sched: seq<Action<V>>)
    requires n >= 2 && AlwaysFree(n, zero, s0) && Slots(Run(n, zero, s0), n, owners, n - 1) && owners[0] == Some(1)
    requires Run(n, zero, s0).PcOf(1) == EraseClear(0)
    ensures AlwaysFree(n, zero, sched) && Slots(Run(n, zero, sched), n, owners[0 := None], n - 1)
    ensures forall u: Tid :: u != 1 ==> Run(n, zero, sched).PcOf(u) == Run(n, zero, s0).PcOf(u)
  {
    hide AlwaysFree, Run;
    sched := Go(n, zero, s0, Advance(1), n - 1);
    sched := Go(n, zero, sched, Advance(1), n - 1);
  }

  /**
    With two slots or more a failing `set` does not mean that the table was full at any one
    moment: a run in which every state has a free slot, and the set of thread n + 1 still fails.
    Threads n and n + 1 come to the last slot; then the first slot becomes free behind them, and
    thread n takes the last.
   */
  lemma SetFailsBesideAFreeSlot<V>(n: nat, zero: V) returns (sched: seq<Action<V>>)
    requires n >= 2
    ensures AlwaysFree(n, zero, sched) && Fails(n, zero, sched, n + 1, zero)
  {
    sched := Fill(n, zero, n - 1);
    sched := ComesTo(n, zero, sched, n, zero, n - 1, n - 1);
    sched := ComesTo(n, zero, sched, n + 1, zero, n - 1, n - 1);
    sched := FirstErases(n, zero, sched);
    sched := LastIsTaken(n, zero, sched);
  }

  lemma LastIsTaken<V>(n: nat, zero: V, s0: seq<Action<V>>) returns (sched: seq<Action<V>>)
    requires n >= 2 && AlwaysFree(n, zero, s0)
    requires Slots(Run(n, zero, s0), n, FirstTaken(n, n - 1)[0 := None], n - 1)
    requires Run(n, zero, s0).PcOf(n) == SetClaim(zero, n - 1) == Run(n, zero, s0).PcOf(n + 1)
    ensures AlwaysFree(n, zero, sched) && Fails(n, zero, sched, n + 1, zero)
  {
    hide AlwaysFree, Run;
    sched := Go(n, zero, s0, Advance(n), 0);
    sched := Go(n, zero, sched, Advance(n + 1), 0);
  }
}
