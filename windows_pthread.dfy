/** The generation-counted barrier of the Win32 pthread shim.

    The barrier's lock and condition variable are not modelled: the code
    between EnterCriticalSection and the point where a thread either returns or
    goes to sleep is one atomic step, `BarrierWait`. A thread that must sleep
    keeps the generation it read on entry and may leave once `MayLeave` holds
    of that generation. */
module WindowsPthread {
  import opened Bytes

  /** The three counters of a barrier, as a value. */
  datatype BarrierState = BarrierState(count: Uint32, waiting: Uint32, generation: Uint32)

  /** What holds between calls once `pthread_barrier_init` has succeeded. */
  predicate Valid(s: BarrierState) {
    0 < s.count && s.waiting < s.count
  }

  /** The state `pthread_barrier_init` leaves. */
  function Initial(count: Uint32): (s: BarrierState)
    requires count > 0
    ensures Valid(s)
  {
    BarrierState(count, 0, 0)
  }

  /** The result of one arrival: the new counters, the generation the
      arriving thread recorded, and whether it was the last of its round. */
  datatype Arrival = Arrival(next: BarrierState, gen: Uint32, last: bool)

  /** The locked body of `pthread_barrier_wait`, `unsigned` arithmetic wrapping. */
  function Arrive(s: BarrierState): (a: Arrival)
    ensures a.gen == s.generation && a.next.count == s.count
    ensures a.last ==> a.next.waiting == 0 && a.next.generation != s.generation
    ensures !a.last ==> a.next.generation == s.generation
  {
    var waiting := (s.waiting + 1) % Two32;
    if waiting >= s.count then
      Arrival(BarrierState(s.count, 0, (s.generation + 1) % Two32), s.generation, true)
    else
      Arrival(BarrierState(s.count, waiting, s.generation), s.generation, false)
  }

  /** The loop condition of a sleeping waiter, negated: it may leave once the
      generation has moved on from the one it recorded. */
  predicate MayLeave(s: BarrierState, gen: Uint32) {
    s.generation != gen
  }

  /** One arrival, exactly: a non-final arrival adds one to `waiting` and
      changes nothing else; the arrival that completes the round resets
      `waiting`, advances `generation` by one modulo 2^32 and does not sleep.
      `count` never changes, and the invariant is kept. */
  lemma ArriveExact(s: BarrierState)
    requires Valid(s)
    ensures var a := Arrive(s);
      a.gen == s.generation && a.next.count == s.count && Valid(a.next) &&
      (a.last <==> s.waiting + 1 == s.count) &&
      (!a.last ==> a.next == s.(waiting := s.waiting + 1)) &&
      (a.last ==> a.next.waiting == 0 && a.next.generation == (s.generation + 1) % Two32)
  {
  }

  /** A thread that must sleep cannot leave straight away. */
  lemma SleeperBlockedOnEntry(s: BarrierState)
    requires Valid(s) && !Arrive(s).last
    ensures !MayLeave(Arrive(s).next, Arrive(s).gen)
  {
  }

  /** `n` arrivals in a row. */
  function Arrivals(s: BarrierState, n: nat): (t: BarrierState)
    requires Valid(s)
    ensures Valid(t) && t.count == s.count
    decreases n
  {
    if n == 0 then s
    else
      var t := Arrivals(s, n - 1);
      ArriveExact(t);
      Arrive(t).next
  }

  lemma MulAtLeast(c: nat, k: nat)
    requires k >= 1
    ensures c * k >= c
  {
  }

  /** Euclidean division is determined by the quotient and remainder it must satisfy. */
  lemma DivModUnique(a: nat, c: nat, q: nat, r: nat)
    requires 0 < c && r < c && a == c * q + r
    ensures a / c == q && a % c == r
  {
    var q', r' := a / c, a % c;
    assert a == c * q' + r';
    if q' < q {
      MulAtLeast(c, q - q');
    } else if q' > q {
      MulAtLeast(c, q' - q);
    }
  }

  /** Where the counters stand after `n` arrivals: `waiting` is the number of
      arrivals since the last completed round, and `generation` has advanced by
      the number of rounds completed, modulo 2^32. */
  lemma {:induction false} ArrivalsCounters(s: BarrierState, n: nat)
    requires Valid(s)
    ensures Arrivals(s, n).waiting == (s.waiting + n) % s.count
    ensures Arrivals(s, n).generation == (s.generation + (s.waiting + n) / s.count) % Two32
    decreases n
  {
    if n == 0 {
      DivModUnique(s.waiting, s.count, 0, s.waiting);
    } else {
      ArrivalsCounters(s, n - 1);
      ArriveCounters(Arrivals(s, n - 1), s.generation, s.waiting + n - 1);
    }
  }

  /** One arrival moves the counters from `a` arrivals to `a + 1`. */
  lemma ArriveCounters(t: BarrierState, g: Uint32, a: nat)
    requires Valid(t)
    requires t.waiting == a % t.count && t.generation == (g + a / t.count) % Two32
    ensures Arrive(t).next.waiting == (a + 1) % t.count
    ensures Arrive(t).next.generation == (g + (a + 1) / t.count) % Two32
  {
    DivModSucc(a, t.count);
    ArriveRounds(t, g + a / t.count);
  }

  /** How quotient and remainder move when the dividend grows by one. */
  lemma DivModSucc(a: nat, c: nat)
    requires 0 < c
    ensures a % c + 1 < c ==> (a + 1) % c == a % c + 1 && (a + 1) / c == a / c
    ensures a % c + 1 == c ==> (a + 1) % c == 0 && (a + 1) / c == a / c + 1
  {
    var q, r := a / c, a % c;
    assert a == c * q + r;
    if r + 1 < c {
      DivModUnique(a + 1, c, q, r + 1);
    } else {
      DivModUnique(a + 1, c, q + 1, 0);
    }
  }

  /** One arrival, in terms of the rounds `x` completed so far. */
  lemma ArriveRounds(t: BarrierState, x: nat)
    requires Valid(t) && t.generation == x % Two32
    ensures t.waiting + 1 < t.count ==>
      Arrive(t).next.waiting == t.waiting + 1 && Arrive(t).next.generation == x % Two32
    ensures t.waiting + 1 == t.count ==>
      Arrive(t).next.waiting == 0 && Arrive(t).next.generation == (x + 1) % Two32
  {
  }

  /** The barrier can be reused: `k` full rounds from a freshly initialised
      barrier leave no one waiting and the generation at `k` modulo 2^32. */
  lemma BarrierReusable(count: Uint32, k: nat)
    requires count > 0
    ensures Arrivals(Initial(count), k * count) == BarrierState(count, 0, k % Two32)
  {
    ArrivalsCounters(Initial(count), k * count);
    DivModUnique(k * count, count, k, 0);
  }

  /** A sleeper is released by exactly the arrival that completes its round:
      the arrivals before it leave the generation it recorded in place, and
      that arrival changes it. */
  lemma SleeperReleasedAtRoundEnd(s: BarrierState, n: nat)
    requires Valid(s) && !Arrive(s).last
    ensures var a := Arrive(s);
      var remaining := a.next.count - a.next.waiting;
      (n < remaining ==> !MayLeave(Arrivals(a.next, n), a.gen)) &&
      (n == remaining ==> MayLeave(Arrivals(a.next, n), a.gen))
  {
    var a := Arrive(s);
    ArriveExact(s);
    var t := a.next;
    ArrivalsCounters(t, n);
    var remaining := t.count - t.waiting;
    if n < remaining {
      DivModUnique(t.waiting + n, t.count, 0, t.waiting + n);
    } else if n == remaining {
      DivModUnique(t.waiting + n, t.count, 1, 0);
    }
  }

  /** A `pthread_barrier_t`; the lock and condition variable are not modelled. */
  class Barrier {
    var count: Uint32
    var waiting: Uint32
    var generation: Uint32

    ghost function State(): BarrierState
      reads this
    {
      BarrierState(count, waiting, generation)
    }

    /** Barrier storage as the caller provides it, holding whatever it held. */
    constructor (count: Uint32, waiting: Uint32, generation: Uint32)
      ensures State() == BarrierState(count, waiting, generation)
    {
      this.count, this.waiting, this.generation := count, waiting, generation;
    }
  }

  /** `pthread_barrier_init`: rejects a null barrier and a zero count. */
  method BarrierInit(barrier: Barrier?, count: Uint32) returns (rc: int)
    modifies barrier
    ensures barrier == null || count == 0 ==> rc == -1
    ensures barrier != null && count == 0 ==> unchanged(barrier)
    ensures barrier != null && count > 0 ==> rc == 0 && barrier.State() == Initial(count)
  {
    if barrier == null || count == 0 {
      return -1;
    }
    barrier.count := count;
    barrier.waiting := 0;
    barrier.generation := 0;
    return 0;
  }

  /** The locked part of `pthread_barrier_wait`. Returns the status the call
      ends with, the generation recorded on entry, and whether the caller
      must sleep until `MayLeave` holds of that generation. */
  method BarrierWait(barrier: Barrier?) returns (rc: int, gen: Uint32, mustSleep: bool)
    modifies barrier
    ensures barrier == null ==> rc == -1 && !mustSleep
    ensures barrier != null ==>
      var a := Arrive(old(barrier.State()));
      rc == 0 && barrier.State() == a.next && gen == a.gen && mustSleep == !a.last
  {
    if barrier == null {
      return -1, 0, false;
    }
    gen := barrier.generation;
    barrier.waiting := (barrier.waiting + 1) % Two32;
    if barrier.waiting >= barrier.count {
      barrier.generation := (barrier.generation + 1) % Two32;
      barrier.waiting := 0;
      return 0, gen, false;
    }
    return 0, gen, true;
  }

  /** The test a woken sleeper makes before leaving its wait loop. */
  method StillWaiting(barrier: Barrier, gen: Uint32) returns (sleepAgain: bool)
    ensures sleepAgain <==> !MayLeave(barrier.State(), gen)
  {
    sleepAgain := gen == barrier.generation;
  }

  /** `pthread_barrier_destroy`: only the null check; the counters are left alone. */
  method BarrierDestroy(barrier: Barrier?) returns (rc: int)
    ensures rc == if barrier == null then -1 else 0
  {
    if barrier == null {
      return -1;
    }
    return 0;
  }
}
