/**
  The circular buffer `CircularBuffer<T>` under its recursive lock, as a step machine.

  Any number of threads call `push`, `pop`, `isEmpty`, `isFull` and `getCount`. One step is one
  lock operation or one access of a field; a thread that asks for a lock held by another waits.
  Schedules are arbitrary, so results about every schedule are results about every interleaving.
 */
module RingProtocol {
  import opened Common

  /** IOItemCount is an unsigned 32-bit type: its arithmetic wraps. */
  const WORD: nat := 0x1_0000_0000

  datatype Query = IsEmpty | IsFull | GetCount

  datatype Op<V> = Push(x: V) | Pop | Ask(q: Query)

  datatype Result<V> = Refused | Pushed | Popped(x: V) | Bool(b: bool) | Count(n: nat)

  /** Where a thread stands; the comment gives its next step. */
  datatype Pc<V> =
    | Idle
    | PushLock(x: V)                      // lock
    | PushFullLock(x: V)                  // lock, inside isFull
    | PushFullRead(x: V)                  // read count, size, indexr, indexw
    | PushFullUnlock(x: V, full: bool)    // unlock, inside isFull
    | PushStore(x: V)                     // storage[indexw] = element
    | PushAdd(x: V)                       // indexw += 1
    | PushMod(x: V)                       // indexw %= size
    | PushCount(x: V)                     // count += 1
    | PopLock                             // lock
    | PopEmptyLock                        // lock, inside isEmpty
    | PopEmptyRead                        // read count, indexr, indexw
    | PopEmptyUnlock(empty: bool)         // unlock, inside isEmpty
    | PopLoad                             // element = storage[indexr]
    | PopAdd(x: V)                        // indexr += 1
    | PopMod(x: V)                        // indexr %= size
    | PopCount(x: V)                      // count -= 1
    | AskLock(q: Query)                   // lock
    | AskRead(q: Query)                   // read the fields
    | Unlock(r: Result<V>)                // unlock, the outermost
    | Answer(r: Result<V>)                // return
    | Fault                               // a division by zero or an access outside the storage

  /** The shared memory: the ring and its recursive lock. */
  datatype Ring<V> = Ring(storage: seq<V>, indexr: nat, indexw: nat, count: nat, owner: Option<Tid>, depth: nat)
  {
    function Size(): nat { |storage| }
  }

  datatype State<V> = State(ring: Ring<V>, pcs: map<Tid, Pc<V>>) {
    function PcOf(t: Tid): Pc<V> {
      if t in pcs then pcs[t] else Idle
    }
  }

  datatype Event<V> = Called(t: Tid, op: Op<V>) | Commit(t: Tid, r: Result<V>) | Returned(t: Tid, r: Result<V>)

  datatype Action<V> = Invoke(t: Tid, op: Op<V>) | Advance(t: Tid)

  datatype Local<V> = Local(ring: Ring<V>, pc: Pc<V>, events: seq<Event<V>>)

  // ---------------------------------------------------------------- the steps

  predicate Available<V>(b: Ring<V>, t: Tid) {
    b.owner == None || b.owner == Some(t)
  }

  function Locked<V>(b: Ring<V>, t: Tid): Ring<V> {
    b.(owner := Some(t), depth := b.depth + 1)
  }

  function Unlocked<V>(b: Ring<V>): Ring<V> {
    if b.depth <= 1 then b.(owner := None, depth := 0) else b.(depth := b.depth - 1)
  }

  /** The compound tests of the code. */
  predicate TestsEmpty<V>(b: Ring<V>) {
    b.count == 0 && b.indexr == b.indexw
  }

  predicate TestsFull<V>(b: Ring<V>) {
    b.count == b.Size() && b.indexr == b.indexw
  }

  function Reply<V>(b: Ring<V>, q: Query): Result<V> {
    match q
    case IsEmpty => Bool(TestsEmpty(b))
    case IsFull => Bool(TestsFull(b))
    case GetCount => Count(b.count)
  }

  /** += 1 and -= 1 in 32 bits. */
  function Inc(i: nat): nat {
    (i + 1) % WORD
  }

  function Dec(i: nat): nat {
    (i + WORD - 1) % WORD
  }

  lemma NoWrap(i: nat)
    ensures i + 1 < WORD ==> Inc(i) == i + 1
    ensures 0 < i < WORD ==> Dec(i) == i - 1
  {
  }

  function Next<V>(b: Ring<V>, pc: Pc<V>, t: Tid): Local<V> {
    match pc
    case Idle => Local(b, pc, [])
    case PushLock(x) => if Available(b, t) then Local(Locked(b, t), PushFullLock(x), []) else Local(b, pc, [])
    case PushFullLock(x) => if Available(b, t) then Local(Locked(b, t), PushFullRead(x), []) else Local(b, pc, [])
    case PushFullRead(x) =>
      Local(b, PushFullUnlock(x, TestsFull(b)), if TestsFull(b) then [Commit(t, Refused)] else [])
    case PushFullUnlock(x, full) => Local(Unlocked(b), if full then Unlock(Refused) else PushStore(x), [])
    case PushStore(x) =>
      if b.indexw >= b.Size() then Local(b, Fault, [])
      else Local(b.(storage := b.storage[b.indexw := x]), PushAdd(x), [])
    case PushAdd(x) => Local(b.(indexw := Inc(b.indexw)), PushMod(x), [])
    case PushMod(x) =>
      if b.Size() == 0 then Local(b, Fault, []) else Local(b.(indexw := b.indexw % b.Size()), PushCount(x), [])
    case PushCount(x) => Local(b.(count := Inc(b.count)), Unlock(Pushed), [Commit(t, Pushed)])
    case PopLock => if Available(b, t) then Local(Locked(b, t), PopEmptyLock, []) else Local(b, pc, [])
    case PopEmptyLock => if Available(b, t) then Local(Locked(b, t), PopEmptyRead, []) else Local(b, pc, [])
    case PopEmptyRead => Local(b, PopEmptyUnlock(TestsEmpty(b)), if TestsEmpty(b) then [Commit(t, Refused)] else [])
    case PopEmptyUnlock(empty) => Local(Unlocked(b), if empty then Unlock(Refused) else PopLoad, [])
    case PopLoad =>
      if b.indexr >= b.Size() then Local(b, Fault, []) else Local(b, PopAdd(b.storage[b.indexr]), [])
    case PopAdd(x) => Local(b.(indexr := Inc(b.indexr)), PopMod(x), [])
    case PopMod(x) =>
      if b.Size() == 0 then Local(b, Fault, []) else Local(b.(indexr := b.indexr % b.Size()), PopCount(x), [])
    case PopCount(x) => Local(b.(count := Dec(b.count)), Unlock(Popped(x)), [Commit(t, Popped(x))])
    case AskLock(q) => if Available(b, t) then Local(Locked(b, t), AskRead(q), []) else Local(b, pc, [])
    case AskRead(q) => Local(b, Unlock(Reply(b, q)), [Commit(t, Reply(b, q))])
    case Unlock(r) => Local(Unlocked(b), Answer(r), [])
    case Answer(r) => Local(b, Idle, [Returned(t, r)])
    case Fault => Local(b, pc, [])
  }

  function Entry<V>(op: Op<V>): Pc<V> {
    match op
    case Push(x) => PushLock(x)
    case Pop => PopLock
    case Ask(q) => AskLock(q)
  }

  function Act<V>(b: Ring<V>, pc: Pc<V>, a: Action<V>): Local<V> {
    match a
    case Invoke(t, op) => if pc.Idle? then Local(b, Entry(op), [Called(t, op)]) else Local(b, pc, [])
    case Advance(t) => Next(b, pc, t)
  }

  function Apply<V>(s: State<V>, a: Action<V>): State<V> {
    var l := Act(s.ring, s.PcOf(a.t), a);
    State(l.ring, s.pcs[a.t := l.pc])
  }

  function Init<V>(storage: seq<V>): State<V> {
    State(Ring(storage, 0, 0, 0, None, 0), map[])
  }

  function Run<V>(storage: seq<V>, sched: seq<Action<V>>): State<V> {
    if sched == [] then Init(storage)
    else Apply(Run(storage, sched[..|sched| - 1]), sched[|sched| - 1])
  }

  function Trace<V>(storage: seq<V>, sched: seq<Action<V>>): seq<Event<V>> {
    if sched == [] then []
    else
      var k := |sched| - 1;
      var s := Run(storage, sched[..k]);
      Trace(storage, sched[..k]) + Act(s.ring, s.PcOf(sched[k].t), sched[k]).events
  }

  // ---------------------------------------------------------------- the ring and its contents

  /** An index past the end starts again at zero. */
  function Wrap(i: nat, size: nat): nat {
    if i < size then i else i - size
  }

  /** `n` elements from `r` on, around the ring. */
  function Contents<V>(storage: seq<V>, r: nat, n: nat): (q: seq<V>)
    requires n <= |storage| && (r < |storage| || n == 0)
    ensures |q| == n
  {
    seq(n, k requires 0 <= k < n => storage[Wrap(r + k, |storage|)])
  }

  /** Indices below the size, and the write index is `count` past the read index. */
  predicate RingOk(size: nat, indexr: nat, indexw: nat, count: nat) {
    if size == 0 then indexr == indexw == count == 0
    else indexr < size && indexw < size && count <= size && indexw == Wrap(indexr + count, size)
  }

  /** The ring is consistent and holds the queue `q`. */
  ghost predicate Holds<V>(b: Ring<V>, q: seq<V>) {
    RingOk(b.Size(), b.indexr, b.indexw, b.count) && q == Contents(b.storage, b.indexr, b.count)
  }

  /** The compound tests mean exactly "no element" and "no room". */
  lemma TestsAreExact<V>(b: Ring<V>, q: seq<V>)
    requires Holds(b, q)
    ensures TestsEmpty(b) <==> q == []
    ensures TestsFull(b) <==> |q| == b.Size()
  {
  }

  // ---------------------------------------------------------------- the invariant

  /** How deep a thread at `pc` is inside the recursive lock. */
  function Depth<V>(pc: Pc<V>): nat {
    match pc
    case Idle => 0
    case PushLock(_) => 0
    case PopLock => 0
    case AskLock(_) => 0
    case Answer(_) => 0
    case PushFullRead(_) => 2
    case PushFullUnlock(_, _) => 2
    case PopEmptyRead => 2
    case PopEmptyUnlock(_) => 2
    case _ => 1
  }

  /** The ring as the holder of the lock left it, between the steps of a call; `q` is the queue. */
  ghost predicate PcHolds<V>(b: Ring<V>, pc: Pc<V>, q: seq<V>) {
    var n := b.Size();
    match pc
    case PushFullUnlock(_, full) => Holds(b, q) && (full <==> |q| == n)
    case PushStore(_) => Holds(b, q) && |q| < n
    case PushAdd(x) => Holds(b, q) && |q| < n && b.storage[b.indexw] == x
    case PushMod(x) =>
      && b.indexw >= 1 && Holds(b.(indexw := b.indexw - 1), q) && |q| < n
      && b.storage[b.indexw - 1] == x
    case PushCount(x) =>
      && b.count == |q| < n && b.indexr < n && b.indexw < n
      && q == Contents(b.storage, b.indexr, b.count)
      && b.indexw == Wrap(Wrap(b.indexr + b.count, n) + 1, n)
      && b.storage[Wrap(b.indexr + b.count, n)] == x
    case PopEmptyUnlock(empty) => Holds(b, q) && (empty <==> q == [])
    case PopLoad => Holds(b, q) && q != []
    case PopAdd(x) => Holds(b, q) && q != [] && x == q[0]
    case PopMod(x) =>
      b.indexr >= 1 && Holds(b.(indexr := b.indexr - 1), q) && q != [] && x == q[0]
    case PopCount(x) =>
      && q != [] && x == q[0] && b.count == |q| <= n && b.indexr < n && b.indexw < n
      && q[1..] == Contents(b.storage, b.indexr, b.count - 1)
      && b.indexw == Wrap(b.indexr + b.count - 1, n)
    case Fault => false
    case _ => Holds(b, q)
  }

  /** The part of the invariant that speaks of thread `t`: it holds the lock as deep as its position says. */
  ghost predicate ThreadOk<V>(b: Ring<V>, pc: Pc<V>, t: Tid) {
    Depth(pc) == if b.owner == Some(t) then b.depth else 0
  }

  /** With the lock free the ring holds `q`; with the lock held it is as the holder's position says. */
  ghost predicate RingInv<V>(s: State<V>, q: seq<V>) {
    && s.ring.Size() < WORD
    && (s.ring.owner == None ==> s.ring.depth == 0 && Holds(s.ring, q))
    && (s.ring.owner.Some? ==> s.ring.depth > 0 && PcHolds(s.ring, s.PcOf(s.ring.owner.value), q))
  }

  ghost predicate Inv<V>(s: State<V>, q: seq<V>) {
    RingInv(s, q) && forall t: Tid :: ThreadOk(s.ring, s.PcOf(t), t)
  }

  function QueueAfter<V>(q: seq<V>, pc: Pc<V>): seq<V> {
    match pc
    case PushCount(x) => q + [x]
    case PopCount(_) => if q == [] then q else q[1..]
    case _ => q
  }

  /** The next step leaves the ring as the new position says. */
  ghost predicate Keeps<V>(b: Ring<V>, pc: Pc<V>, t: Tid, q: seq<V>) {
    var l := Next(b, pc, t);
    PcHolds(l.ring, l.pc, QueueAfter(q, pc)) && l.ring.Size() == b.Size()
  }

  // Facts about the ring alone.

  lemma ModIsWrap(i: nat, size: nat)
    requires 0 < size && i <= size
    ensures i % size == Wrap(i, size)
  {
    if i < size { assert i % size == i; } else { assert i % size == 0; }
  }

  /** A store at the write index of a ring that is not full does not touch its contents, and extends them. */
  lemma StoreExtends<V>(storage: seq<V>, r: nat, n: nat, x: V)
    requires n < |storage| && r < |storage|
    ensures Contents(storage[Wrap(r + n, |storage|) := x], r, n) == Contents(storage, r, n)
    ensures Contents(storage[Wrap(r + n, |storage|) := x], r, n + 1) == Contents(storage, r, n) + [x]
  {
    var stored := storage[Wrap(r + n, |storage|) := x];
    forall k | 0 <= k < n
      ensures Contents(stored, r, n)[k] == Contents(storage, r, n)[k] == Contents(stored, r, n + 1)[k]
    {
      assert Contents(storage, r, n)[k] == storage[Wrap(r + k, |storage|)];
    }
  }

  /** Moving the read index drops the first element. */
  lemma AdvanceDrops<V>(storage: seq<V>, r: nat, n: nat)
    requires 0 < n <= |storage| && r < |storage|
    ensures Contents(storage, r, n)[0] == storage[r]
    ensures Contents(storage, r, n)[1..] == Contents(storage, Wrap(r + 1, |storage|), n - 1)
  {
    var q, rest := Contents(storage, r, n), Contents(storage, Wrap(r + 1, |storage|), n - 1);
    assert q[0] == storage[Wrap(r + 0, |storage|)];
    forall k | 0 <= k < n - 1
      ensures q[1..][k] == rest[k]
    {
      assert q[1..][k] == q[k + 1] == storage[Wrap(r + (k + 1), |storage|)];
      assert rest[k] == storage[Wrap(Wrap(r + 1, |storage|) + k, |storage|)];
    }
  }

  lemma PushStoreKeeps<V>(b: Ring<V>, x: V, t: Tid, q: seq<V>)
    requires b.Size() < WORD && PcHolds(b, PushStore(x), q)
    ensures Keeps(b, PushStore(x), t, q)
  {
    StoreExtends(b.storage, b.indexr, b.count, x);
  }

  lemma PushAddKeeps<V>(b: Ring<V>, x: V, t: Tid, q: seq<V>)
    requires b.Size() < WORD && PcHolds(b, PushAdd(x), q)
    ensures Keeps(b, PushAdd(x), t, q)
  {
    hide Inc, Dec;
    NoWrap(b.indexw);
    assert Next(b, PushAdd(x), t).ring.(indexw := b.indexw) == b;
  }

  lemma PushModKeeps<V>(b: Ring<V>, x: V, t: Tid, q: seq<V>)
    requires b.Size() < WORD && PcHolds(b, PushMod(x), q)
    ensures Keeps(b, PushMod(x), t, q)
  {
    ModIsWrap(b.indexw, b.Size());
  }

  lemma PushCountKeeps<V>(b: Ring<V>, x: V, t: Tid, q: seq<V>)
    requires b.Size() < WORD && PcHolds(b, PushCount(x), q)
    ensures Keeps(b, PushCount(x), t, q)
  {
    hide Inc, Dec;
    NoWrap(b.count);
    StoreExtends(b.storage, b.indexr, b.count, x);
    assert b.storage[Wrap(b.indexr + b.count, b.Size()) := x] == b.storage;
  }

  lemma PopLoadKeeps<V>(b: Ring<V>, t: Tid, q: seq<V>)
    requires b.Size() < WORD && PcHolds(b, PopLoad, q)
    ensures Keeps(b, PopLoad, t, q)
  {
    AdvanceDrops(b.storage, b.indexr, b.count);
  }

  lemma PopAddKeeps<V>(b: Ring<V>, x: V, t: Tid, q: seq<V>)
    requires b.Size() < WORD && PcHolds(b, PopAdd(x), q)
    ensures Keeps(b, PopAdd(x), t, q)
  {
    hide Inc, Dec;
    NoWrap(b.indexr);
    assert Next(b, PopAdd(x), t).ring.(indexr := b.indexr) == b;
  }

  lemma PopModKeeps<V>(b: Ring<V>, x: V, t: Tid, q: seq<V>)
    requires b.Size() < WORD && PcHolds(b, PopMod(x), q)
    ensures Keeps(b, PopMod(x), t, q)
  {
    ModIsWrap(b.indexr, b.Size());
    AdvanceDrops(b.storage, b.indexr - 1, b.count);
  }

  lemma PopCountKeeps<V>(b: Ring<V>, x: V, t: Tid, q: seq<V>)
    requires b.Size() < WORD && PcHolds(b, PopCount(x), q)
    ensures Keeps(b, PopCount(x), t, q)
  {
    hide Inc, Dec;
    NoWrap(b.count);
  }

  /** What a step of the lock's holder leaves: the ring as its new position says. */
  lemma HolderKeeps<V>(b: Ring<V>, pc: Pc<V>, t: Tid, q: seq<V>)
    requires b.Size() < WORD && Depth(pc) > 0 && PcHolds(b, pc, q) && b.owner == Some(t) && b.depth == Depth(pc)
    ensures Keeps(b, pc, t, q)
  {
    hide PcHolds, Keeps, Next;
    match pc {
      case PushStore(x) => PushStoreKeeps(b, x, t, q);
      case PushAdd(x) => PushAddKeeps(b, x, t, q);
      case PushMod(x) => PushModKeeps(b, x, t, q);
      case PushCount(x) => PushCountKeeps(b, x, t, q);
      case PopLoad => PopLoadKeeps(b, t, q);
      case PopAdd(x) => PopAddKeeps(b, x, t, q);
      case PopMod(x) => PopModKeeps(b, x, t, q);
      case PopCount(x) => PopCountKeeps(b, x, t, q);
      case _ => QuietStepKeeps(b, pc, t, q);
    }
  }

  /** The steps of the holder that touch nothing but the lock. */
  lemma QuietStepKeeps<V>(b: Ring<V>, pc: Pc<V>, t: Tid, q: seq<V>)
    requires PcHolds(b, pc, q) && b.owner == Some(t) && Depth(pc) > 0
    requires !(pc.PushStore? || pc.PushAdd? || pc.PushMod? || pc.PushCount?)
    requires !(pc.PopLoad? || pc.PopAdd? || pc.PopMod? || pc.PopCount?)
    ensures Keeps(b, pc, t, q)
  {
    var l := Next(b, pc, t);
    assert l.ring.storage == b.storage && l.ring.indexr == b.indexr && l.ring.indexw == b.indexw;
    assert Holds(b, q);
    TestsAreExact(b, q);
  }

  /** The holder's lock depth follows its position, down to the release. */
  lemma HolderKeepsLock<V>(b: Ring<V>, pc: Pc<V>, t: Tid)
    requires b.owner == Some(t) && b.depth == Depth(pc) > 0 && !Next(b, pc, t).pc.Fault?
    ensures var l := Next(b, pc, t);
            l.ring.depth == Depth(l.pc) && l.ring.owner == if Depth(l.pc) > 0 then Some(t) else None
  {
  }

  /** A thread outside the lock stays outside, or takes it when it is free. */
  lemma OutsiderStep<V>(b: Ring<V>, pc: Pc<V>, a: Action<V>)
    requires Depth(pc) == 0 && b.owner != Some(a.t) && (b.owner == None ==> b.depth == 0)
    ensures var l := Act(b, pc, a);
            || (l.ring == b && Depth(l.pc) == 0)
            || (b.owner == None && l.ring == Locked(b, a.t) && Depth(l.pc) == 1
                && (l.pc.PushFullLock? || l.pc.PopEmptyLock? || l.pc.AskRead?))
    ensures QueueAfter([], pc) == []
  {
  }

  lemma LockKeepsContents<V>(b: Ring<V>, t: Tid, q: seq<V>)
    ensures Holds(b, q) ==> Holds(Locked(b, t), q)
  {
  }

  /** A step of one thread keeps what the lock guards. */
  lemma ActKeepsRing<V>(s: State<V>, a: Action<V>, q: seq<V>)
    requires Inv(s, q)
    ensures RingInv(Apply(s, a), if a.Advance? then QueueAfter(q, s.PcOf(a.t)) else q)
    ensures ThreadOk(Apply(s, a).ring, Apply(s, a).PcOf(a.t), a.t)
    ensures Apply(s, a).ring.Size() == s.ring.Size()
  {
    hide Next, Holds;
    var b, t, pc, s' := s.ring, a.t, s.PcOf(a.t), Apply(s, a);
    assert ThreadOk(b, pc, t);
    if Depth(pc) == 0 {
      OutsiderStep(b, pc, a);
      LockKeepsContents(b, t, q);
      assert QueueAfter(q, pc) == q;
      if b.owner.Some? { assert s'.PcOf(b.owner.value) == s.PcOf(b.owner.value); }
    } else if a.Advance? {
      HolderKeeps(b, pc, t, q);
      HolderKeepsLock(b, pc, t);
    }
  }

  lemma ApplyKeepsInv<V>(s: State<V>, a: Action<V>, q: seq<V>)
    requires Inv(s, q)
    ensures Inv(Apply(s, a), if a.Advance? then QueueAfter(q, s.PcOf(a.t)) else q)
    ensures Apply(s, a).ring.Size() == s.ring.Size()
  {
    ActKeepsRing(s, a, q);
    var s' := Apply(s, a);
    forall u: Tid
      ensures ThreadOk(s'.ring, s'.PcOf(u), u)
    {
      assert ThreadOk(s.ring, s.PcOf(u), u) && ThreadOk(s.ring, s.PcOf(a.t), a.t);
      if u != a.t { LockOfOthers(s.ring, s.PcOf(a.t), a, u); }
    }
  }

  /** No step of one thread changes how deep another holds the lock. */
  lemma LockOfOthers<V>(b: Ring<V>, pc: Pc<V>, a: Action<V>, u: Tid)
    requires ThreadOk(b, pc, a.t) && u != a.t && (b.owner == None ==> b.depth == 0)
    ensures var b' := Act(b, pc, a).ring;
            (b'.owner == Some(u) <==> b.owner == Some(u)) && (b.owner == Some(u) ==> b'.depth == b.depth)
  {
  }

  // ---------------------------------------------------------------- linearizability

  datatype Phase<V> = Quiet | Calling(op: Op<V>) | Answered(r: Result<V>)

  /** A bounded FIFO queue, and the calls in progress; `ok` until an event breaks the specification. */
  datatype Spec<V> = Spec(queue: seq<V>, phases: map<Tid, Phase<V>>, ok: bool) {
    function PhaseOf(t: Tid): Phase<V> {
      if t in phases then phases[t] else Quiet
    }
  }

  /** The answer of the queue `q` of capacity `cap` to an operation. */
  function Answering<V>(q: seq<V>, cap: nat, op: Op<V>): Result<V> {
    match op
    case Push(_) => if |q| == cap then Refused else Pushed
    case Pop => if q == [] then Refused else Popped(q[0])
    case Ask(IsEmpty) => Bool(|q| == 0)
    case Ask(IsFull) => Bool(|q| == cap)
    case Ask(GetCount) => Count(|q|)
  }

  /** Its contents afterwards. */
  function Afterwards<V>(q: seq<V>, cap: nat, op: Op<V>): seq<V> {
    match op
    case Push(x) => if |q| == cap then q else q + [x]
    case Pop => if q == [] then q else q[1..]
    case Ask(_) => q
  }

  ghost function SpecStep<V>(spec: Spec<V>, cap: nat, e: Event<V>): Spec<V> {
    var phase := spec.PhaseOf(e.t);
    match e
    case Called(t, op) => spec.(phases := spec.phases[t := Calling(op)], ok := spec.ok && phase.Quiet?)
    case Commit(t, r) =>
      if phase.Calling? && r == Answering(spec.queue, cap, phase.op) then
        spec.(queue := Afterwards(spec.queue, cap, phase.op), phases := spec.phases[t := Answered(r)])
      else spec.(ok := false)
    case Returned(t, r) => spec.(phases := spec.phases[t := Quiet], ok := spec.ok && phase == Answered(r))
  }

  ghost function SpecOf<V>(trace: seq<Event<V>>, cap: nat): Spec<V> {
    if trace == [] then Spec([], map[], true)
    else SpecStep(SpecOf(trace[..|trace| - 1], cap), cap, trace[|trace| - 1])
  }

  ghost predicate InPhase<V>(pc: Pc<V>, phase: Phase<V>) {
    match pc
    case Idle => phase == Quiet
    case PushLock(x) => phase == Calling(Push(x))
    case PushFullLock(x) => phase == Calling(Push(x))
    case PushFullRead(x) => phase == Calling(Push(x))
    case PushFullUnlock(x, full) => phase == if full then Answered(Refused) else Calling(Push(x))
    case PushStore(x) => phase == Calling(Push(x))
    case PushAdd(x) => phase == Calling(Push(x))
    case PushMod(x) => phase == Calling(Push(x))
    case PushCount(x) => phase == Calling(Push(x))
    case PopLock => phase == Calling(Pop)
    case PopEmptyLock => phase == Calling(Pop)
    case PopEmptyRead => phase == Calling(Pop)
    case PopEmptyUnlock(empty) => phase == if empty then Answered(Refused) else Calling(Pop)
    case PopLoad => phase == Calling(Pop)
    case PopAdd(_) => phase == Calling(Pop)
    case PopMod(_) => phase == Calling(Pop)
    case PopCount(_) => phase == Calling(Pop)
    case AskLock(q) => phase == Calling(Ask(q))
    case AskRead(q) => phase == Calling(Ask(q))
    case Unlock(r) => phase == Answered(r)
    case Answer(r) => phase == Answered(r)
    case Fault => false
  }

  ghost function After<V>(spec: Spec<V>, cap: nat, events: seq<Event<V>>): Spec<V> {
    if events == [] then spec else SpecStep(spec, cap, events[0])
  }

  /** A step of a thread tells the specification what it expects. */
  lemma ActFollowsSpec<V>(b: Ring<V>, pc: Pc<V>, a: Action<V>, spec: Spec<V>)
    requires InPhase(pc, spec.PhaseOf(a.t)) && spec.ok
    requires Depth(pc) > 0 ==> PcHolds(b, pc, spec.queue)
    requires !Act(b, pc, a).pc.Fault?
    ensures var l := Act(b, pc, a);
            var spec' := After(spec, b.Size(), l.events);
            && |l.events| <= 1 && spec'.ok && InPhase(l.pc, spec'.PhaseOf(a.t))
            && spec'.queue == (if a.Advance? then QueueAfter(spec.queue, pc) else spec.queue)
            && forall u :: u != a.t ==> spec'.PhaseOf(u) == spec.PhaseOf(u)
  {
    hide Contents, Wrap, RingOk;
    match a {
      case Invoke(_, _) =>
      case Advance(t) =>
        if Decides(pc) { DecisionFollowsSpec(b, pc, t, spec); } else { SilentStep(b, pc, t, spec.PhaseOf(t)); }
    }
  }

  /** The steps at which calls take effect, and the returns. */
  predicate Decides<V>(pc: Pc<V>) {
    pc.PushFullRead? || pc.PushCount? || pc.PopEmptyRead? || pc.PopCount? || pc.AskRead? || pc.Answer?
  }

  lemma SilentStep<V>(b: Ring<V>, pc: Pc<V>, t: Tid, phase: Phase<V>)
    requires InPhase(pc, phase) && !Decides(pc) && !Next(b, pc, t).pc.Fault?
    ensures Next(b, pc, t).events == [] && InPhase(Next(b, pc, t).pc, phase)
    ensures forall q :: QueueAfter(q, pc) == q
  {
  }

  lemma DecisionFollowsSpec<V>(b: Ring<V>, pc: Pc<V>, t: Tid, spec: Spec<V>)
    requires Decides(pc) && InPhase(pc, spec.PhaseOf(t)) && spec.ok
    requires Depth(pc) > 0 ==> PcHolds(b, pc, spec.queue)
    ensures var l := Next(b, pc, t);
            var spec' := After(spec, b.Size(), l.events);
            && |l.events| <= 1 && spec'.ok && InPhase(l.pc, spec'.PhaseOf(t))
            && spec'.queue == QueueAfter(spec.queue, pc)
            && forall u :: u != t ==> spec'.PhaseOf(u) == spec.PhaseOf(u)
  {
    hide Contents, Wrap, RingOk, Inc, Dec;
    if pc.PushFullRead? || pc.PopEmptyRead? || pc.AskRead? { TestsAreExact(b, spec.queue); }
  }

  /** The state is what the specification says after the same events. */
  ghost predicate Linearized<V>(s: State<V>, spec: Spec<V>) {
    spec.ok && Inv(s, spec.queue) && forall t: Tid :: InPhase(s.PcOf(t), spec.PhaseOf(t))
  }

  lemma ApplyLinearized<V>(s: State<V>, a: Action<V>, tr: seq<Event<V>>)
    requires Linearized(s, SpecOf(tr, s.ring.Size()))
    ensures Linearized(Apply(s, a), SpecOf(tr + Act(s.ring, s.PcOf(a.t), a).events, s.ring.Size()))
    ensures Apply(s, a).ring.Size() == s.ring.Size()
  {
    hide Next, Inv, RingInv, SpecStep, InPhase;
    var cap, pc := s.ring.Size(), s.PcOf(a.t);
    var spec, events := SpecOf(tr, cap), Act(s.ring, pc, a).events;
    InsideHolds(s, a, spec.queue);
    assert InPhase(pc, spec.PhaseOf(a.t));
    ActFollowsSpec(s.ring, pc, a, spec);
    ApplyKeepsInv(s, a, spec.queue);
    SpecOfMore(tr, events, cap);
    forall t: Tid
      ensures InPhase(Apply(s, a).PcOf(t), SpecOf(tr + events, cap).PhaseOf(t))
    {
      assert InPhase(s.PcOf(t), spec.PhaseOf(t));
    }
  }

  lemma InsideHolds<V>(s: State<V>, a: Action<V>, q: seq<V>)
    requires Inv(s, q)
    ensures Depth(s.PcOf(a.t)) > 0 ==> PcHolds(s.ring, s.PcOf(a.t), q)
    ensures !Act(s.ring, s.PcOf(a.t), a).pc.Fault?
  {
    var b, t, pc := s.ring, a.t, s.PcOf(a.t);
    assert ThreadOk(b, pc, t);
    if Depth(pc) > 0 {
      HolderKeeps(b, pc, t, q);
    }
  }

  lemma SpecOfMore<V>(tr: seq<Event<V>>, es: seq<Event<V>>, cap: nat)
    requires |es| <= 1
    ensures SpecOf(tr + es, cap) == After(SpecOf(tr, cap), cap, es)
  {
    if es == [] { assert tr + es == tr; } else { assert (tr + es)[..|tr|] == tr; }
  }

  /**
    Every interleaving of calls linearizes to a bounded FIFO queue whose capacity is the size of
    the storage, zero included: between its call and its return each call takes effect once, with
    the answer of the queue. No step divides by zero or leaves the storage.
   */
  lemma {:induction false} Linearizable<V>(storage: seq<V>, sched: seq<Action<V>>)
    requires |storage| < WORD
    ensures Linearized(Run(storage, sched), SpecOf(Trace(storage, sched), |storage|))
    ensures Run(storage, sched).ring.Size() == |storage|
  {
    if sched == [] {
      var s, q := Init(storage), SpecOf<V>([], |storage|).queue;
      assert Holds(s.ring, q);
      forall t: Tid
        ensures ThreadOk(s.ring, s.PcOf(t), t) && InPhase(s.PcOf(t), Quiet)
      {
      }
    } else {
      var k := |sched| - 1;
      Linearizable(storage, sched[..k]);
      ApplyLinearized(Run(storage, sched[..k]), sched[k], Trace(storage, sched[..k]));
    }
  }

  /** At most one thread is inside the lock, and a thread outside a call holds nothing of it. */
  lemma MutualExclusion<V>(storage: seq<V>, sched: seq<Action<V>>, t: Tid, u: Tid)
    requires |storage| < WORD
    ensures var s := Run(storage, sched);
            && (Depth(s.PcOf(t)) > 0 && Depth(s.PcOf(u)) > 0 ==> t == u)
            && (Depth(s.PcOf(t)) > 0 ==> s.ring.owner == Some(t) && s.ring.depth == Depth(s.PcOf(t)))
            && (s.PcOf(t).Idle? ==> s.ring.owner != Some(t))
            && !s.PcOf(t).Fault?
  {
    Linearizable(storage, sched);
    var s := Run(storage, sched);
    assert ThreadOk(s.ring, s.PcOf(t), t) && ThreadOk(s.ring, s.PcOf(u), u);
    assert InPhase(s.PcOf(t), SpecOf(Trace(storage, sched), |storage|).PhaseOf(t));
  }

  // ---------------------------------------------------------------- the lock is released

  /** At most how many steps of its own a thread at `pc` still takes until it is out of the lock. */
  function StepsInside<V>(pc: Pc<V>): nat {
    match pc
    case PushFullLock(_) => 8
    case PushFullRead(_) => 7
    case PushFullUnlock(_, _) => 6
    case PushStore(_) => 5
    case PushAdd(_) => 4
    case PushMod(_) => 3
    case PushCount(_) => 2
    case PopEmptyLock => 8
    case PopEmptyRead => 7
    case PopEmptyUnlock(_) => 6
    case PopLoad => 5
    case PopAdd(_) => 4
    case PopMod(_) => 3
    case PopCount(_) => 2
    case AskRead(_) => 2
    case Unlock(_) => 1
    case _ => 0
  }

  lemma OneStepLess<V>(b: Ring<V>, pc: Pc<V>, t: Tid)
    requires Depth(pc) > 0 && b.owner == Some(t) && !Next(b, pc, t).pc.Fault? && !pc.Fault?
    ensures StepsInside(Next(b, pc, t).pc) < StepsInside(pc)
  {
    hide Inc, Dec, TestsFull, TestsEmpty, Locked, Unlocked;
  }

  function OwnSteps<V(==)>(acts: seq<Action<V>>, t: Tid): nat {
    if acts == [] then 0 else (if acts[0] == Advance(t) then 1 else 0) + OwnSteps(acts[1..], t)
  }

  lemma {:induction false} LeavesInTime<V>(storage: seq<V>, sched: seq<Action<V>>, more: seq<Action<V>>, t: Tid)
    returns (k: nat)
    requires |storage| < WORD && StepsInside(Run(storage, sched).PcOf(t)) <= OwnSteps(more, t)
    ensures k <= |more| && Depth(Run(storage, sched + more[..k]).PcOf(t)) == 0
    decreases |more|
  {
    hide Inv, Linearized, Act;
    var s := Run(storage, sched);
    Linearizable(storage, sched);
    InsideLock(s, t, SpecOf(Trace(storage, sched), |storage|));
    if Depth(s.PcOf(t)) == 0 {
      k := 0;
      assert sched + more[..0] == sched;
    } else {
      var next := sched + [more[0]];
      assert next[..|sched|] == sched;
      StepInside(s, more[0], t);
      var k' := LeavesInTime(storage, next, more[1..], t);
      k := k' + 1;
      assert sched + more[..k] == next + more[1..][..k'];
    }
  }

  /** A thread inside the lock holds it, and its next step is no fault. */
  lemma InsideLock<V>(s: State<V>, t: Tid, spec: Spec<V>)
    requires Linearized(s, spec)
    ensures !s.PcOf(t).Fault? && (Depth(s.PcOf(t)) == 0 <==> StepsInside(s.PcOf(t)) == 0)
    ensures Depth(s.PcOf(t)) > 0 ==> s.ring.owner == Some(t) && !Next(s.ring, s.PcOf(t), t).pc.Fault?
  {
    assert ThreadOk(s.ring, s.PcOf(t), t) && InPhase(s.PcOf(t), spec.PhaseOf(t));
    InsideHolds(s, Advance(t), spec.queue);
    hide Next, RingInv;
  }

  lemma StepInside<V>(s: State<V>, a: Action<V>, t: Tid)
    requires Depth(s.PcOf(t)) > 0 && s.ring.owner == Some(t) && !s.PcOf(t).Fault?
    requires !Next(s.ring, s.PcOf(t), t).pc.Fault?
    ensures var pc := Apply(s, a).PcOf(t);
            if a == Advance(t) then StepsInside(pc) < StepsInside(s.PcOf(t)) else pc == s.PcOf(t)
  {
    if a == Advance(t) { OneStepLess(s.ring, s.PcOf(t), t); }
    hide Next, StepsInside;
  }

  /** Whoever is inside the lock is out of it within eight steps of its own, so that others can enter. */
  lemma LockIsReleased<V>(storage: seq<V>, sched: seq<Action<V>>, more: seq<Action<V>>, t: Tid) returns (k: nat)
    requires |storage| < WORD && OwnSteps(more, t) >= 8
    ensures k <= |more| && Depth(Run(storage, sched + more[..k]).PcOf(t)) == 0
  {
    k := LeavesInTime(storage, sched, more, t);
  }

  // ---------------------------------------------------------------- first in, first out

  /** The elements that pushes have put in, in the order in which they took effect. */
  ghost function PushedBy<V>(tr: seq<Event<V>>, cap: nat): seq<V> {
    if tr == [] then []
    else
      var k := |tr| - 1;
      PushedBy(tr[..k], cap) + PushOf(SpecOf(tr[..k], cap), tr[k])
  }

  /** The element that event `e` puts in, if any. */
  ghost function PushOf<V>(spec: Spec<V>, e: Event<V>): seq<V> {
    var phase := spec.PhaseOf(e.t);
    if e.Commit? && e.r.Pushed? && phase.Calling? && phase.op.Push? then [phase.op.x] else []
  }

  function PopOf<V>(e: Event<V>): seq<V> {
    if e.Commit? && e.r.Popped? then [e.r.x] else []
  }

  /** The elements that pops have returned. */
  function PoppedBy<V>(tr: seq<Event<V>>): seq<V> {
    if tr == [] then []
    else
      var k := |tr| - 1;
      PoppedBy(tr[..k]) + PopOf(tr[k])
  }

  /** As long as the specification is kept, what went in is what came out and then what is queued. */
  lemma {:induction false} FifoOfSpec<V>(tr: seq<Event<V>>, cap: nat)
    requires SpecOf(tr, cap).ok
    ensures PushedBy(tr, cap) == PoppedBy(tr) + SpecOf(tr, cap).queue
    ensures |SpecOf(tr, cap).queue| <= cap
  {
    if tr != [] {
      var k := |tr| - 1;
      FifoOfSpec(tr[..k], cap);
      FifoStep(SpecOf(tr[..k], cap), cap, tr[k], PushedBy(tr[..k], cap), PoppedBy(tr[..k]));
    }
  }

  /** One event more: a queue that is pushed to grows at its end, one that is popped gives up its front. */
  lemma FifoStep<V>(spec: Spec<V>, cap: nat, e: Event<V>, pushed: seq<V>, popped: seq<V>)
    requires SpecStep(spec, cap, e).ok && |spec.queue| <= cap && pushed == popped + spec.queue
    ensures pushed + PushOf(spec, e) == popped + PopOf(e) + SpecStep(spec, cap, e).queue
    ensures spec.ok && |SpecStep(spec, cap, e).queue| <= cap
  {
  }

  /** In every interleaving the popped elements are a prefix of the pushed ones, and at most `size` are behind. */
  lemma FirstInFirstOut<V>(storage: seq<V>, sched: seq<Action<V>>)
    requires |storage| < WORD
    ensures var tr := Trace(storage, sched);
            PoppedBy(tr) <= PushedBy(tr, |storage|) && |PushedBy(tr, |storage|)| <= |PoppedBy(tr)| + |storage|
  {
    Linearizable(storage, sched);
    FifoOfSpec(Trace(storage, sched), |storage|);
  }
}
