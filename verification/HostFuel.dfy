/** Fuel accounting over a time slice, and the effects of calls that trap. */
module HostFuel {
  import opened Common
  import opened Capabilities
  import opened RamFs
  import opened HostCalls

  /**
   A call that ends in a trap or a panic leaves the capabilities, the linear memory, the file
   system, the sync registry and all counters unchanged: only fuel is gone.
   */
  lemma TrapHasNoEffect(p: Process, k: Kernel, c: HostCall)
    requires Valid(k.fs)
    ensures var r := Call(p, k, c);
            !r.outcome.Done? ==> r.k == k && r.p == p.(fuel := r.p.fuel)
  {
  }

  /** What a call is charged beyond its first charge. */
  ghost function Extra(p: Process, k: Kernel, c: HostCall): nat
    requires Valid(k.fs)
  {
    match c
    case GetCapabilities(_, len) =>
      if p.memory.Some? && AsUsize(len) >= 16 * |p.caps| then MEMORY_IO * |p.caps| else 0
    case FsRead(cap, _, len, offset) =>
      var found := Lookup(p, cap);
      if p.memory.Some? && found.Some? && found.value.resource.FileCap? && READ in found.value.rights && len >= 0
         && Read(k.fs, Handle32(found.value.resource.handle), len, AsUsize(offset)).Ok?
      then MEMORY_IO else 0
    case _ => 0
  }

  /** A charged call completes only with at least the threshold left, and is charged exactly its price. */
  lemma ChargedExactly(p: Process, k: Kernel, c: HostCall)
    requires Valid(k.fs) && Charged(c)
    ensures var r := Call(p, k, c);
            && r.p.fuel <= p.fuel
            && (r.outcome.Done? ==>
                  r.p.fuel >= YIELD_THRESHOLD && r.p.fuel == p.fuel - Cost(c) - Extra(p, k, c))
            && (r.outcome == Trap(Yield) <==> Exhausted(r.p))
  {
    assert forall cap :: Lookup(Burn(p, Cost(c)), cap) == Lookup(p, cap);
  }

  /** One call made by a process, with the state it finds. */
  datatype Moment = Moment(p: Process, k: Kernel, c: HostCall)

  /**
   The calls of one process in one time slice. Between two calls everything but its fuel may have
   changed: its own code writes its memory, and other processes change the kernel state.
   */
  ghost predicate Slice(ms: seq<Moment>) {
    && (forall i | 0 <= i < |ms| :: Valid(ms[i].k.fs))
    && (forall i | 0 <= i < |ms| - 1 :: ms[i + 1].p.fuel == Call(ms[i].p, ms[i].k, ms[i].c).p.fuel)
  }

  ghost predicate Completes(m: Moment)
    requires Valid(m.k.fs)
  {
    Charged(m.c) && Call(m.p, m.k, m.c).outcome.Done?
  }

  /** The total price of the completed charged calls. */
  ghost function Spent(ms: seq<Moment>): nat
    requires Slice(ms)
  {
    if ms == [] then 0
    else
      (if Completes(ms[0]) then Cost(ms[0].c) + Extra(ms[0].p, ms[0].k, ms[0].c) else 0) + Spent(ms[1..])
  }

  ghost function Completed(ms: seq<Moment>): nat
    requires Slice(ms)
  {
    if ms == [] then 0 else (if Completes(ms[0]) then 1 else 0) + Completed(ms[1..])
  }

  lemma {:induction false} SpentWithin(ms: seq<Moment>)
    requires Slice(ms) && ms != []
    ensures Spent(ms) == 0 || Spent(ms) + YIELD_THRESHOLD <= ms[0].p.fuel
    ensures CAP_LOOKUP * Completed(ms) <= Spent(ms)
    decreases |ms|
  {
    var m, rest := ms[0], ms[1..];
    if Charged(m.c) {
      ChargedExactly(m.p, m.k, m.c);
    }
    if rest != [] {
      assert rest[0] == ms[1];
      SpentWithin(rest);
    }
  }

  /**
   In one slice the completed charged calls cost at most 9500 in total, so at most 950 complete,
   whatever the other processes do in between.
   */
  lemma {:induction false} SliceBound(ms: seq<Moment>)
    requires Slice(ms) && ms != [] && ms[0].p.fuel == FUEL_PER_SLICE
    ensures Spent(ms) <= 9500 && Completed(ms) <= 950
  {
    SpentWithin(ms);
  }

  /** After a charged call has yielded, every charged call yields until the fuel is refilled. */
  lemma {:induction false} StarvedUntilRefill(ms: seq<Moment>, i: nat)
    requires Slice(ms) && 0 < i < |ms|
    requires Charged(ms[0].c) && Call(ms[0].p, ms[0].k, ms[0].c).outcome == Trap(Yield)
    ensures Exhausted(ms[i].p)
    ensures Charged(ms[i].c) ==> Call(ms[i].p, ms[i].k, ms[i].c).outcome == Trap(Yield)
    decreases i
  {
    var before := ms[i - 1];
    if i > 1 {
      StarvedUntilRefill(ms, i - 1);
    }
    if Charged(before.c) {
      ChargedExactly(before.p, before.k, before.c);
    }
    assert ms[i - 1 + 1].p.fuel == Call(before.p, before.k, before.c).p.fuel;
    if Charged(ms[i].c) {
      ChargedExactly(ms[i].p, ms[i].k, ms[i].c);
    }
  }
}
