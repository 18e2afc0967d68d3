/**
  `ThreadLocal<T, N>` in the form of the code: two arrays and the loops of `set`, `get` and
  `erase`, with other threads running before every atomic access.

  Every write of the shared arrays keeps the table as the protocol of ThreadLocalProtocol has it,
  and in between the other threads take any number of steps of that protocol.
 */
module ThreadLocalObject {
  import opened Common
  import opened ThreadLocalProtocol

  /** At most one slot differs, and both before and after it was free or of `me`. */
  ghost predicate OnlySlotOf<T>(b: Table<T>, b': Table<T>, me: Tid) {
    && |b.owners| == |b.values| == |b'.owners| == |b'.values| && b'.zero == b.zero
    && forall i :: 0 <= i < |b.owners| ==>
         || (b'.owners[i] == b.owners[i] && b'.values[i] == b.values[i])
         || (b.owners[i] in {None, Some(me)} && b'.owners[i] in {None, Some(me)})
  }

  lemma OthersKeepTheirs<T>(b: Table<T>, b': Table<T>, me: Tid)
    requires TableOk(b) && TableOk(b') && OnlySlotOf(b, b', me)
    ensures forall u: Tid :: u != me ==> View(b', Idle, u) == View(b, Idle, u)
  {
    forall u: Tid | u != me
      ensures View(b', Idle, u) == View(b, Idle, u)
    {
      UndisturbedView(b, b', Idle, u);
    }
  }

  /** Slot `i` of the table is in the hands of another thread than `me`. */
  ghost predicate OfAnother<T>(b: Table<T>, i: nat, me: Tid) {
    i < |b.owners| && b.owners[i] !in {None, Some(me)}
  }

  /** The tables of `history` at the places `at`, from `from` on and in order, have slot after slot in other hands. */
  ghost predicate MetOthers<T>(history: seq<Table<T>>, me: Tid, from: nat, at: seq<nat>) {
    && (forall i :: 0 <= i < |at| ==> from <= at[i] < |history| && OfAnother(history[at[i]], i, me))
    && (forall i, j :: 0 <= i < j < |at| ==> at[i] <= at[j])
  }

  lemma MetOneMore<T>(h: seq<Table<T>>, h': seq<Table<T>>, me: Tid, from: nat, at: seq<nat>)
    requires MetOthers(h, me, from, at) && h <= h' && from < |h'| && OfAnother(h'[|h'| - 1], |at|, me)
    ensures MetOthers(h', me, from, at + [|h'| - 1])
  {
  }

  class ThreadLocal<T(==)> {
    const threads: array<Option<Tid>>
    const values: array<T>
    const zero: T

    ghost var history: seq<Table<T>>   // the tables that have been, up to the present one

    ghost predicate Valid()
      reads this, threads, values
    {
      && threads as object != values && threads.Length == values.Length && TableOk(Snapshot())
      && history != [] && history[|history| - 1] == Snapshot()
    }

    function Snapshot(): Table<T>
      reads threads, values
    {
      Table(threads[..], values[..], zero)
    }

    /** The value that `t` has stored, if any, while `t` is not inside a call. */
    ghost function ValueOf(t: Tid): Option<T>
      requires threads.Length == values.Length
      reads threads, values
    {
      View(Snapshot(), Idle, t)
    }

    constructor (n: nat, zero: T)
      ensures Valid() && fresh(threads) && fresh(values)
      ensures threads.Length == n && forall t: Tid :: ValueOf(t) == None
    {
      this.zero := zero;
      threads := new Option<Tid>[n](_ => None);
      values := new T[n](_ => zero);
      new;
      history := [Snapshot()];
    }

    /** Clear the table; the caller makes sure that no thread is inside a call. */
    method Deinit()
      requires Valid()
      modifies this`history, threads, values
      ensures Valid() && forall t: Tid :: ValueOf(t) == None
      ensures forall i :: 0 <= i < threads.Length ==> threads[i] == None && values[i] == zero
    {
      for i := 0 to threads.Length
        invariant threads as object != values
        invariant forall j :: 0 <= j < i ==> threads[j] == None && values[j] == zero
      {
        threads[i] := None;
        values[i] := zero;
      }
      history := history + [Snapshot()];
    }

    /**
      Other threads run, wherever they stand inside or between their calls: any number of steps
      of the protocol. Under `quiet` no other thread runs.
     */
    method Others(me: Tid, quiet: bool)
      requires Valid()
      modifies this`history, threads, values
      ensures Valid() && Undisturbed(old(Snapshot()), Snapshot(), me)
      ensures ValueOf(me) == old(ValueOf(me)) && old(history) <= history
      ensures quiet ==> Snapshot() == old(Snapshot()) && history == old(history)
    {
      if quiet { return; }
      var n :| 0 <= n;
      for k := 0 to n
        invariant Valid() && Undisturbed(old(Snapshot()), Snapshot(), me) && old(history) <= history
      {
        var a: Action<T>, pc: Pc<T>, ptr: Option<nat> := *, *, *;
        if a.t != me && ThreadOk(Snapshot(), a.t, pc, ptr) {
          ActKeepsTable(Snapshot(), pc, ptr, a);
          ActLeavesOthers(Snapshot(), pc, ptr, a, me);
          Become(Act(Snapshot(), pc, ptr, a).table);
        }
      }
      UndisturbedView(old(Snapshot()), Snapshot(), Idle, me);
    }

    method Become(b: Table<T>)
      requires threads as object != values && b.zero == zero
      requires |b.owners| == threads.Length && |b.values| == values.Length
      modifies this`history, threads, values
      ensures Snapshot() == b && history == old(history) + [b]
    {
      forall i | 0 <= i < threads.Length { threads[i] := b.owners[i]; }
      forall i | 0 <= i < values.Length { values[i] := b.values[i]; }
      assert threads[..] == b.owners && values[..] == b.values;
      history := history + [b];
    }

    method SetOwner(i: nat, owner: Option<Tid>)
      requires i < threads.Length && threads as object != values
      modifies this`history, threads
      ensures Snapshot() == old(Snapshot()).(owners := old(threads[..])[i := owner])
      ensures history == old(history) + [Snapshot()]
    {
      threads[i] := owner;
      assert threads[..] == old(threads[..])[i := owner];
      history := history + [Snapshot()];
    }

    method SetValue(i: nat, v: T)
      requires i < values.Length && threads as object != values
      modifies this`history, values
      ensures Snapshot() == Write(old(Snapshot()), i, v)
      ensures history == old(history) + [Snapshot()]
    {
      values[i] := v;
      assert values[..] == old(values[..])[i := v];
      history := history + [Snapshot()];
    }

    /** The first loop of `set`, and the loops of `get` and `erase`: find the slot of the current thread. */
    method Find(me: Tid, quiet: bool) returns (slot: Option<nat>)
      requires Valid()
      modifies this`history, threads, values
      ensures Valid() && Undisturbed(old(Snapshot()), Snapshot(), me) && old(history) <= history
      ensures quiet ==> Snapshot() == old(Snapshot()) && history == old(history)
      ensures ValueOf(me) == old(ValueOf(me))
      ensures slot.Some? ==> Owns(Snapshot(), me, slot.value) && ValueOf(me) == Some(values[slot.value])
      ensures slot.None? ==> ValueOf(me) == None && OwnsNone(Snapshot(), me, threads.Length)
    {
      var n, i := threads.Length, 0;
      slot := None;
      while slot == None && i < n
        invariant 0 <= i <= n && Valid() && Undisturbed(old(Snapshot()), Snapshot(), me) && old(history) <= history
        invariant if slot.Some? then Owns(Snapshot(), me, slot.value) else OwnsNone(Snapshot(), me, i)
        invariant quiet ==> Snapshot() == old(Snapshot()) && history == old(history)
        decreases n - i, slot == None
      {
        Others(me, quiet);
        if threads[i] == Some(me) { slot := Some(i); }
        i := i + 1;
      }
      UndisturbedView(old(Snapshot()), Snapshot(), Idle, me);
    }

    /** The second loop of `set`: take the first slot whose CAS from null succeeds; `at` says what the failed ones met. */
    method Claim(me: Tid, quiet: bool) returns (slot: Option<nat>, ghost at: seq<nat>)
      requires Valid() && OwnsNone(Snapshot(), me, threads.Length)
      modifies this`history, threads, values
      ensures Valid() && old(history) <= history
      ensures slot.Some? ==> Owns(Snapshot(), me, slot.value) && values[slot.value] == zero
      ensures slot.None? ==> OwnsNone(Snapshot(), me, threads.Length)
      ensures slot.None? ==> |at| == threads.Length && MetOthers(history, me, |old(history)| - 1, at)
      ensures quiet && slot.None? ==> Snapshot() == old(Snapshot()) && history == old(history)
      ensures quiet && slot.Some? ==>
                slot.value < threads.Length && old(threads[slot.value]) == None
                && Snapshot() == old(Snapshot()).(owners := old(threads[..])[slot.value := Some(me)])
    {
      var n, i := threads.Length, 0;
      slot, at := None, [];
      while slot == None && i < n
        invariant 0 <= i <= n && Valid() && old(history) <= history
        invariant slot.None? ==> OwnsNone(Snapshot(), me, n)
        invariant slot.None? ==> |at| == i && MetOthers(history, me, |old(history)| - 1, at)
        invariant slot.Some? ==> Owns(Snapshot(), me, slot.value) && values[slot.value] == zero
        invariant quiet && slot.None? ==> Snapshot() == old(Snapshot()) && history == old(history)
        invariant quiet && slot.Some? ==>
                    old(threads[..])[slot.value] == None
                    && Snapshot() == old(Snapshot()).(owners := old(threads[..])[slot.value := Some(me)])
        decreases n - i, slot == None
      {
        slot, at := Try(me, i, |old(history)| - 1, at, quiet);
        i := i + 1;
      }
    }

    /** One CAS of `set`, from null to the current thread. */
    method Try(me: Tid, i: nat, ghost from: nat, ghost before: seq<nat>, quiet: bool)
      returns (slot: Option<nat>, ghost at: seq<nat>)
      requires Valid() && OwnsNone(Snapshot(), me, threads.Length)
      requires i == |before| < threads.Length && from < |history| && MetOthers(history, me, from, before)
      modifies this`history, threads, values
      ensures Valid() && old(history) <= history && slot in {None, Some(i)}
      ensures slot.Some? ==> Owns(Snapshot(), me, i) && values[i] == zero
      ensures slot.None? ==> OwnsNone(Snapshot(), me, threads.Length)
      ensures slot.None? ==> |at| == i + 1 && MetOthers(history, me, from, at)
      ensures quiet && slot.None? ==> Snapshot() == old(Snapshot()) && history == old(history)
      ensures quiet && slot.Some? ==>
                old(threads[i]) == None && Snapshot() == old(Snapshot()).(owners := old(threads[..])[i := Some(me)])
    {
      Others(me, quiet);
      at := before;
      if threads[i] == None {
        ActKeepsTable(Snapshot(), SetClaim(zero, i), None, Advance(me));
        SetOwner(i, Some(me));
        slot := Some(i);
      } else {
        MetOneMore(old(history), history, me, from, before);
        at := before + [|history| - 1];
        slot := None;
      }
    }

    /**
      Set or overwrite the value of the current thread. When it fails, each slot in turn was in
      another thread's hands at some moment of this call.
     */
    method Set(me: Tid, value: T, quiet: bool) returns (ok: bool, ghost at: seq<nat>)
      requires Valid()
      modifies this`history, threads, values
      ensures Valid() && old(history) <= history && ValueOf(me) == if ok then Some(value) else None
      ensures !ok ==> old(ValueOf(me)) == None
      ensures !ok ==> |at| == threads.Length && MetOthers(history, me, |old(history)| - 1, at)
      ensures quiet ==> (ok <==> exists i :: 0 <= i < threads.Length && old(threads[..])[i] in {None, Some(me)})
      ensures quiet ==> forall u: Tid :: u != me ==> ValueOf(u) == old(ValueOf(u))
    {
      ghost var before, h := Snapshot(), history;
      var slot := Find(me, quiet);
      at := [];
      if slot == None {
        ghost var from := |history| - 1;
        slot, at := Claim(me, quiet);
        if slot == None { MetSince(history, me, from, |h| - 1, at); }
      }
      ok := slot != None;
      if ok {
        assert quiet ==> old(threads[..])[slot.value] in {None, Some(me)};
        Insert(me, slot.value, value, quiet);
      } else if quiet {
        forall i | 0 <= i < threads.Length
          ensures old(threads[..])[i] !in {None, Some(me)}
        {
          assert OfAnother(history[at[i]], i, me) && history[at[i]] == before;
        }
      }
      assert quiet ==> OnlySlotOf(before, Snapshot(), me);
      if quiet { OthersKeepTheirs(before, Snapshot(), me); }
    }

    /** *ptr = value, after other threads have run. */
    method Insert(me: Tid, slot: nat, value: T, quiet: bool)
      requires Valid() && Owns(Snapshot(), me, slot)
      modifies this`history, threads, values
      ensures Valid() && ValueOf(me) == Some(value) && old(history) <= history
      ensures quiet ==> Snapshot() == Write(old(Snapshot()), slot, value)
    {
      Others(me, quiet);
      ActKeepsTable(Snapshot(), SetStore(value, slot, false), None, Advance(me));
      SetValue(slot, value);
    }

    method Clear(me: Tid, slot: nat, quiet: bool)
      requires Valid() && Owns(Snapshot(), me, slot)
      modifies this`history, threads, values
      ensures Valid() && old(history) <= history && Owns(Snapshot(), me, slot) && values[slot] == zero
      ensures quiet ==> Snapshot() == Write(old(Snapshot()), slot, zero)
    {
      Others(me, quiet);
      ActKeepsTable(Snapshot(), EraseClear(slot), None, Advance(me));
      SetValue(slot, zero);
    }

    /** values[slot] = {}, and the CAS that gives the slot up. */
    method Release(me: Tid, slot: nat, quiet: bool) returns (ok: bool)
      requires Valid() && Owns(Snapshot(), me, slot)
      modifies this`history, threads, values
      ensures Valid() && ok && ValueOf(me) == None && old(history) <= history
      ensures quiet ==> Snapshot() == Write(old(Snapshot()), slot, zero).(owners := old(threads[..])[slot := None])
    {
      Clear(me, slot, quiet);
      Others(me, quiet);
      ok := threads[slot] == Some(me);
      if ok {
        ActKeepsTable(Snapshot(), EraseFree(slot), None, Advance(me));
        SetOwner(slot, None);
        assert OwnsNone(Snapshot(), me, threads.Length);
      }
    }

    /** The slot of the current thread; the caller reads and writes through it until it erases. */
    method Get(me: Tid, quiet: bool) returns (slot: Option<nat>)
      requires Valid()
      modifies this`history, threads, values
      ensures Valid() && ValueOf(me) == old(ValueOf(me)) && old(history) <= history
      ensures slot.Some? <==> ValueOf(me).Some?
      ensures slot.Some? ==> slot.value < values.Length && ValueOf(me) == Some(values[slot.value])
      ensures quiet ==> Snapshot() == old(Snapshot())
    {
      slot := Find(me, quiet);
    }

    /** Unset the value of the current thread if present. */
    method Erase(me: Tid, quiet: bool) returns (ok: bool)
      requires Valid()
      modifies this`history, threads, values
      ensures Valid() && ValueOf(me) == None && old(history) <= history
      ensures ok <==> old(ValueOf(me)).Some?
      ensures quiet ==> forall u: Tid :: u != me ==> ValueOf(u) == old(ValueOf(u))
    {
      ghost var before := Snapshot();
      var slot := Find(me, quiet);
      ok := false;
      if slot.Some? { ok := Release(me, slot.value, quiet); }
      assert quiet ==> OnlySlotOf(before, Snapshot(), me);
      if quiet { OthersKeepTheirs(before, Snapshot(), me); }
    }
  }

  lemma MetSince<T>(h: seq<Table<T>>, me: Tid, from: nat, earlier: nat, at: seq<nat>)
    requires MetOthers(h, me, from, at) && earlier <= from
    ensures MetOthers(h, me, earlier, at)
  {
  }
}
