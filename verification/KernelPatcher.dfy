/**
  Two services of the kernel patcher: hooking an entry of a virtual table with `routeVirtual`,
  and solving a batch of symbols with `solveMultiple`.
 */
module KernelPatcher {

  // ---------------------------------------------------------------- hooks

  type Function = nat

  /** The variable in which a hook keeps the function it replaced. */
  class Original {
    var fn: Function

    constructor ()
    {
      fn := 0;
    }
  }

  /** routeVirtual on the virtual table of an object; a null object or table routes nothing. */
  method RouteVirtual(vt: array?<Function>, off: nat, func: Function, org: Original?) returns (ok: bool)
    requires vt != null ==> off < vt.Length
    modifies vt, org
    ensures ok <==> vt != null && old(vt[off]) != func
    ensures vt != null ==> vt[..] == if ok then old(vt[..])[off := func] else old(vt[..])
    ensures org != null ==> org.fn == if ok then old(vt[off]) else old(org.fn)
    ensures vt != null && org != null ==>
              forall m :: Route(Entry(old(vt[off]), m), func) == Entry(vt[off], if ok then m[func := org.fn] else m)
  {
    if vt != null {
      if vt[off] == func { return false; }
      if org != null { org.fn := vt[off]; }
      vt[off] := func;
      assert vt[..] == old(vt[..])[off := func];
      return true;
    }
    return false;
  }

  /** One table entry, and for every hook the function that it calls on to. */
  datatype Entry = Entry(current: Function, org: map<Function, Function>)

  /** Installing hook `h`, with its own Original, as RouteVirtual does. */
  function Route(e: Entry, h: Function): Entry {
    if e.current == h then e else Entry(h, e.org[h := e.current])
  }

  function RouteAll(original: Function, hooks: seq<Function>): Entry {
    if hooks == [] then Entry(original, map[])
    else Route(RouteAll(original, hooks[..|hooks| - 1]), hooks[|hooks| - 1])
  }

  /** Calling `f` and then on to what it replaced comes to `goal` after `steps` hooks. */
  predicate Reaches(org: map<Function, Function>, f: Function, goal: Function, steps: nat)
    decreases steps
  {
    if f == goal then steps == 0
    else steps > 0 && f in org && Reaches(org, org[f], goal, steps - 1)
  }

  /** A call through the entry ends in the original function. */
  ghost predicate EndsIn(e: Entry, original: Function) {
    exists steps :: Reaches(e.org, e.current, original, steps)
  }

  /**
    The installations that are not turned away since the original was last put back: each differs
    from the function in place.
   */
  function Accepted(original: Function, hooks: seq<Function>): (a: seq<Function>)
    ensures original !in a && forall h :: h in a ==> h in hooks
  {
    if hooks == [] then []
    else
      var before := Accepted(original, hooks[..|hooks| - 1]);
      var h := hooks[|hooks| - 1];
      if h == original then []
      else if before != [] && before[|before| - 1] == h then before
      else before + [h]
  }

  predicate Distinct(s: seq<Function>) {
    forall i, j :: 0 <= i < j < |s| ==> s[i] != s[j]
  }

  /** What stands below place `i` of a chain of hooks. */
  function Below(original: Function, a: seq<Function>, i: nat): Function
    requires i <= |a|
  {
    if i == 0 then original else a[i - 1]
  }

  ghost predicate Linked(org: map<Function, Function>, original: Function, a: seq<Function>) {
    forall i :: 0 <= i < |a| ==> a[i] in org && org[a[i]] == Below(original, a, i)
  }

  /** The hooks `a`, each calling on to the one before it, the first to the original. */
  ghost predicate IsChain(e: Entry, original: Function, a: seq<Function>) {
    e.current == Below(original, a, |a|) && Linked(e.org, original, a)
  }

  /** A set of hooks that call each other and never anything else. */
  ghost predicate IsTrap(e: Entry, original: Function, trap: set<Function>) {
    e.current in trap && original !in trap && forall f :: f in trap ==> f in e.org && e.org[f] in trap
  }

  lemma {:induction false} ChainEnds(org: map<Function, Function>, original: Function, a: seq<Function>)
    requires original !in a && Linked(org, original, a)
    ensures Reaches(org, Below(original, a, |a|), original, |a|)
  {
    if a != [] {
      var below := a[..|a| - 1];
      forall i | 0 <= i < |below|
        ensures below[i] in org && org[below[i]] == Below(original, below, i)
      {
        assert below[i] == a[i];
      }
      ChainEnds(org, original, below);
      assert Below(original, below, |below|) == Below(original, a, |a| - 1);
    }
  }

  lemma {:induction false} TrapHolds(e: Entry, original: Function, trap: set<Function>, f: Function, steps: nat)
    requires original !in trap && f in trap && forall g :: g in trap ==> g in e.org && e.org[g] in trap
    ensures !Reaches(e.org, f, original, steps)
    decreases steps
  {
    if steps > 0 { TrapHolds(e, original, trap, e.org[f], steps - 1); }
  }

  lemma RepeatedStays(a: seq<Function>, h: Function)
    requires !Distinct(a)
    ensures !Distinct(a + [h])
  {
    var i, j :| 0 <= i < j < |a| && a[i] == a[j];
    assert (a + [h])[i] == (a + [h])[j];
  }

  lemma RepeatedAppears(a: seq<Function>, i: nat)
    requires i < |a|
    ensures !Distinct(a + [a[i]])
  {
    assert (a + [a[i]])[i] == (a + [a[i]])[|a|];
  }

  lemma ChainGrows(e: Entry, original: Function, a: seq<Function>, h: Function)
    requires IsChain(e, original, a) && Distinct(a) && h !in a && h != e.current
    ensures Distinct(a + [h]) && IsChain(Route(e, h), original, a + [h])
  {
    var b, e' := a + [h], Route(e, h);
    forall i | 0 <= i < |b|
      ensures b[i] in e'.org && e'.org[b[i]] == Below(original, b, i)
    {
      if i < |a| { assert b[i] == a[i] && Below(original, b, i) == Below(original, a, i); }
    }
  }

  lemma TrapStays(e: Entry, original: Function, trap: set<Function>, h: Function)
    requires IsTrap(e, original, trap) && h != original
    ensures IsTrap(Route(e, h), original, if h == e.current then trap else trap + {h})
  {
  }

  /** The state after any installations: a chain while the accepted hooks are distinct, a trap from then on. */
  lemma {:induction false} ChainOrTrap(original: Function, hooks: seq<Function>) returns (trap: set<Function>)
    ensures Distinct(Accepted(original, hooks)) ==>
              IsChain(RouteAll(original, hooks), original, Accepted(original, hooks))
    ensures !Distinct(Accepted(original, hooks)) ==> IsTrap(RouteAll(original, hooks), original, trap)
    ensures RouteAll(original, hooks).current == Below(original, Accepted(original, hooks), |Accepted(original, hooks)|)
  {
    hide IsChain, IsTrap, Distinct;
    trap := {};
    if hooks == [] {
      NoHooksLeft(Entry(original, map[]), original);
    } else {
      var k := |hooks| - 1;
      var before, h, e := Accepted(original, hooks[..k]), hooks[k], RouteAll(original, hooks[..k]);
      trap := ChainOrTrap(original, hooks[..k]);
      if h == original {
        NoHooksLeft(Route(e, h), original);
      } else if e.current != h {
        if !Distinct(before) {
          RepeatedStays(before, h);
          TrapStays(e, original, trap, h);
          trap := trap + {h};
        } else if h in before {
          var i :| 0 <= i < |before| && before[i] == h;
          trap := Upper(before, i);
          RepeatedAppears(before, i);
          TrapCloses(e, original, before, i);
        } else {
          ChainGrows(e, original, before, h);
        }
      }
    }
  }

  lemma NoHooksLeft(e: Entry, original: Function)
    requires e.current == original
    ensures Distinct([]) && IsChain(e, original, [])
  {
  }

  /** The hooks of a chain from place `i` up. */
  function Upper(a: seq<Function>, i: nat): set<Function> {
    set j | i <= j < |a| :: a[j]
  }

  /** Installing a hook that is further down a chain of distinct hooks closes a cycle above it. */
  lemma TrapCloses(e: Entry, original: Function, a: seq<Function>, i: nat)
    requires IsChain(e, original, a) && Distinct(a) && original !in a && i < |a| && e.current != a[i]
    ensures IsTrap(Route(e, a[i]), original, Upper(a, i))
  {
    hide Linked;
    var e' := Route(e, a[i]);
    assert a[|a| - 1] in Upper(a, i);
    forall f | f in Upper(a, i)
      ensures f in e'.org && e'.org[f] in Upper(a, i)
    {
      var j :| i <= j < |a| && a[j] == f;
      if j > i { StepDown(e.org, original, a, j); }
    }
  }

  lemma StepDown(org: map<Function, Function>, original: Function, a: seq<Function>, j: nat)
    requires Linked(org, original, a) && 0 < j < |a|
    ensures a[j] in org && org[a[j]] == a[j - 1]
  {
    hide Below;
    BelowPlace(original, a, j);
  }

  lemma BelowPlace(original: Function, a: seq<Function>, j: nat)
    requires 0 < j <= |a|
    ensures Below(original, a, j) == a[j - 1]
  {
  }

  /**
    After any installations, putting the original back included: a call through the entry ends in
    the original function exactly when no hook was accepted twice since the original was last in
    place. The code turns away a hook only if it is the one in place; a hook that is installed
    again further up calls the ones above it for ever, until the original is put back.
   */
  lemma RouteEndsIff(original: Function, hooks: seq<Function>)
    ensures EndsIn(RouteAll(original, hooks), original) <==> Distinct(Accepted(original, hooks))
  {
    var e := RouteAll(original, hooks);
    var trap := ChainOrTrap(original, hooks);
    if Distinct(Accepted(original, hooks)) {
      ChainEnds(e.org, original, Accepted(original, hooks));
    } else {
      forall steps
        ensures !Reaches(e.org, e.current, original, steps)
      {
        TrapHolds(e, original, trap, e.current, steps);
      }
    }
  }

  /** The shortest failing run: `f`, then `g`, then `f` again. */
  lemma HookedAgain(original: Function, f: Function, g: Function)
    requires f != g && original != f && original != g
    ensures !EndsIn(RouteAll(original, [f, g, f]), original)
  {
    var hooks := [f, g, f];
    assert hooks[..2] == [f, g] && [f, g][..1] == [f] && [f][..0] == [];
    assert Accepted(original, [f]) == [f] && Accepted(original, [f, g]) == [f, g];
    assert Accepted(original, hooks)[0] == Accepted(original, hooks)[2];
    RouteEndsIff(original, hooks);
  }

  // ---------------------------------------------------------------- symbols

  const ADDRESSES: nat := 0x1_0000_0000_0000_0000

  /** Addresses and sizes are 64-bit numbers. */
  type Address = a: nat | a < ADDRESSES

  /** The addresses from `start` on, `size` of them; a range that reaches the end of memory has none. */
  predicate InRange(a: Address, start: Address, size: Address) {
    start + size < ADDRESSES && start <= a < start + size
  }

  /** The test of the code, whose sum wraps, is exactly that of the range. */
  lemma WrappingTest(a: Address, start: Address, size: Address)
    ensures start <= a < (start + size) % ADDRESSES <==> InRange(a, start, size)
  {
    if start + size >= ADDRESSES {
      assert (start + size) % ADDRESSES == start + size - ADDRESSES;
    }
  }

  datatype Error = NoError | InvalidSymbolFound

  class Patcher {
    const symbols: map<string, Address>   // running addresses; a missing symbol has none
    var code: Error

    constructor (symbols: map<string, Address>)
      ensures this.symbols == symbols && code == NoError
    {
      this.symbols, code := symbols, NoError;
    }

    function Lookup(symbol: string): Address {
      if symbol in symbols then symbols[symbol] else 0
    }

    /** The symbol is known, at an address in the range. */
    predicate Solvable(symbol: string, start: Address, size: Address) {
      Lookup(symbol) != 0 && InRange(Lookup(symbol), start, size)
    }

    predicate SolvedUpTo(requests: seq<string>, n: nat, start: Address, size: Address)
      requires n <= |requests|
    {
      forall i :: 0 <= i < n ==> Solvable(requests[i], start, size)
    }

    function Lookups(requests: seq<string>): seq<Address> {
      seq(|requests|, i requires 0 <= i < |requests| => Lookup(requests[i]))
    }

    /** The ranged solveSymbol, without the panic that `crash` asks for. */
    method SolveSymbol(symbol: string, start: Address, size: Address) returns (addr: Address)
      modifies this`code
      ensures addr != 0 <==> Solvable(symbol, start, size)
      ensures addr != 0 ==> addr == Lookup(symbol)
      ensures code == old(code) || (code == InvalidSymbolFound && addr == 0)
      ensures Lookup(symbol) != 0 && addr == 0 ==> code == InvalidSymbolFound
      ensures Lookup(symbol) == 0 ==> code == old(code)
    {
      addr := Lookup(symbol);
      if addr != 0 {
        WrappingTest(addr, start, size);
        if addr >= start && addr < (start + size) % ADDRESSES { return addr; }
        code := InvalidSymbolFound;
      }
      return 0;
    }

    /**
      solveMultiple. Its description promises false if at least one symbol cannot be solved; with
      `force` the code returns true all the same.
     */
    method SolveMultiple(requests: seq<string>, address: array<Address>, start: Address, size: Address, force: bool)
      returns (ok: bool)
      requires address.Length == |requests|
      modifies this`code, address
      ensures ok <==> force || SolvedUpTo(requests, |requests|, start, size)
      ensures ok ==> forall i :: 0 <= i < |requests| ==>
                address[i] == if Solvable(requests[i], start, size) then Lookup(requests[i]) else old(address[i])
      ensures !ok ==> exists n :: 0 <= n < |requests|
                                  && !Solvable(requests[n], start, size) && SolvedUpTo(requests, n, start, size)
                                  && address[..] == Lookups(requests[..n]) + old(address[n..])
      ensures code == if SolvedUpTo(requests, |requests|, start, size) then old(code) else NoError
    {
      for index := 0 to |requests|
        invariant forall i :: 0 <= i < index ==>
                    address[i] == if Solvable(requests[i], start, size) then Lookup(requests[i]) else old(address[i])
        invariant forall i :: index <= i < |requests| ==> address[i] == old(address[i])
        invariant !force ==> SolvedUpTo(requests, index, start, size)
        invariant code == if SolvedUpTo(requests, index, start, size) then old(code) else NoError
      {
        var result := SolveSymbol(requests[index], start, size);
        if result != 0 {
          address[index] := result;
        } else {
          code := NoError;
          if !force {
            assert address[..] == Lookups(requests[..index]) + old(address[index..]);
            return false;
          }
        }
      }
      return true;
    }
  }
}
