/** What the waits of the lightweight semaphore do before they give up: they load the count, spin, register,
    and then sleep on the kernel semaphore unless their timeout is zero. */
module SemaphoreWaits {
  import opened LightweightSemaphores

  /** No kernel wait of the waiting thread fails. */
  predicate NoTimeout(moves: seq<Move>) {
    forall i :: 0 <= i < |moves| ==> moves[i].WaiterMove? ==> moves[i].take
  }

  /** Where a wait that may sleep stands as long as no kernel wait of its own has failed. */
  predicate Patient(w: Waiter) {
    match w
    case TryLoad(mode) => mode.Wait? && mode.timeout != Zero
    case SpinLoad(t, _) => t != Zero
    case Register(t) => t != Zero
    case TryTake | SpinTake | Kernel => true
    case Returned(ok) => ok
    case _ => false
  }

  /** Where a wait that must not sleep stands. */
  predicate Sleepless(w: Waiter) {
    match w
    case TryLoad(mode) => mode == Try || mode == Wait(Zero)
    case SpinLoad(t, _) => t == Zero
    case Register(t) => t == Zero
    case Kernel => false
    case _ => true
  }

  lemma PatientStep(s: Sem, w: Waiter)
    requires Patient(w)
    ensures Patient(WaiterStep(s, w, true).1)
  {
  }

  lemma SleeplessStep(s: Sem, w: Waiter, take: bool)
    requires Sleepless(w)
    ensures Sleepless(WaiterStep(s, w, take).1)
  {
  }

  lemma {:induction false} PatientRuns(s: System, moves: seq<Move>)
    requires Patient(s.waiter) && NoCall(moves) && NoTimeout(moves)
    ensures Patient(Run(s, moves).waiter)
    decreases |moves|
  {
    if moves != [] {
      if moves[0].WaiterMove? { PatientStep(s.sem, s.waiter); }
      PatientRuns(Apply(s, moves[0]), moves[1..]);
    }
  }

  lemma {:induction false} SleeplessRuns(s: System, moves: seq<Move>)
    requires Sleepless(s.waiter) && NoCall(moves)
    ensures Sleepless(Run(s, moves).waiter)
    decreases |moves|
  {
    if moves != [] {
      if moves[0].WaiterMove? { SleeplessStep(s.sem, s.waiter, moves[0].take); }
      SleeplessRuns(Apply(s, moves[0]), moves[1..]);
    }
  }

  /** A wait whose timeout is not zero fails only through a kernel wait that fails. */
  lemma KernelWaitDecides(s: System, t: Timeout, moves: seq<Move>)
    requires s.waiter == TryLoad(Wait(t)) && t != Zero && NoCall(moves) && NoTimeout(moves)
    ensures Run(s, moves).waiter != Returned(false)
  {
    PatientRuns(s, moves);
  }

  /** `tryWait()` and a wait of timeout zero never sleep. */
  lemma ZeroNeverSleeps(s: System, mode: Mode, moves: seq<Move>)
    requires s.waiter == TryLoad(mode) && (mode == Try || mode == Wait(Zero)) && NoCall(moves)
    ensures Run(s, moves).waiter != Kernel
  {
    SleeplessRuns(s, moves);
  }

  // ---------------------------------------------------------------------------------------------
  // A wait that nobody signals

  /** The waiting thread alone. */
  function Alone(n: nat): (moves: seq<Move>)
    ensures |moves| == n
  {
    if n == 0 then [] else [WaiterMove(true)] + Alone(n - 1)
  }

  lemma AloneStep(s: System, n: nat)
    requires n > 0
    ensures Run(s, Alone(n)) == Run(Apply(s, WaiterMove(true)), Alone(n - 1))
  {
    assert Alone(n)[1..] == Alone(n - 1);
  }

  lemma {:induction false} Spins(s: System, t: Timeout, left: nat, n: nat)
    requires s.waiter == SpinLoad(t, left) && s.sem.count <= 0 && n <= left && 0 < left
    ensures Run(s, Alone(n)) == s.(waiter := if n < left then SpinLoad(t, left - n) else Register(t))
    decreases n
  {
    if n > 0 {
      AloneStep(s, n);
      if left > 1 { Spins(s.(waiter := SpinLoad(t, left - 1)), t, left - 1, n - 1); }
    }
  }

  lemma {:induction false} AloneAdds(s: System, m: nat, n: nat)
    ensures Run(s, Alone(m + n)) == Run(Run(s, Alone(m)), Alone(n))
    decreases m
  {
    if m > 0 {
      AloneStep(s, m);
      AloneStep(s, m + n);
      AloneAdds(Apply(s, WaiterMove(true)), m - 1, n);
    }
  }

  /** Sleeping and having returned are where the thread stays when it is left alone. */
  lemma {:induction false} StaysPut(s: System, n: nat)
    requires s.waiter.Returned? || (s.waiter == Kernel && s.sem.kernel == 0)
    ensures Run(s, Alone(n)) == s
    decreases n
  {
    if n > 0 {
      AloneStep(s, n);
      StaysPut(s, n - 1);
    }
  }


  lemma StillLoading(s: System, t: Timeout, spin: nat, n: nat)
    requires s.waiter == SpinLoad(t, spin) && s.sem == Sem(0, 0) && spin > 0 && n <= spin
    ensures Run(s, Alone(n)).sem == Sem(0, 0) && !Run(s, Alone(n)).waiter.Returned?
  {
    Spins(s, t, spin, n);
  }

  lemma AfterSpinning(s: System, t: Timeout, spin: nat, rest: nat)
    requires s.waiter == SpinLoad(t, spin) && s.sem == Sem(0, 0) && spin > 0
    ensures Run(s, Alone(spin + rest)) == Run(s.(waiter := Register(t)), Alone(rest))
  {
    Spins(s, t, spin, spin);
    AloneAdds(s, spin, rest);
  }

  /** The registration, with nobody signalling: the thread sleeps from then on, or, with timeout zero, has
      taken the registration back with its next operation. */
  lemma Registered(s: System, t: Timeout, n: nat)
    requires s.waiter == Register(t) && s.sem == Sem(0, 0) && n >= 1
    ensures t != Zero ==> Run(s, Alone(n)) == s.(sem := Sem(-1, 0), waiter := Kernel)
    ensures n >= 2 && t == Zero ==> Run(s, Alone(n)) == s.(waiter := Returned(false))
  {
    AloneStep(s, n);
    if t != Zero {
      StaysPut(s.(sem := Sem(-1, 0), waiter := Kernel), n - 1);
    } else if n >= 2 {
      Undone(s.(sem := Sem(-1, 0), waiter := Undo), n - 1);
    }
  }

  lemma Undone(s: System, n: nat)
    requires s.waiter == Undo && s.sem == Sem(-1, 0) && n >= 1
    ensures Run(s, Alone(n)) == s.(sem := Sem(0, 0), waiter := Returned(false))
  {
    AloneStep(s, n);
    StaysPut(s.(sem := Sem(0, 0), waiter := Returned(false)), n - 1);
  }

  lemma SpinsOut(s: System, t: Timeout, spin: nat, n: nat)
    requires s.waiter == SpinLoad(t, spin) && s.sem == Sem(0, 0) && spin > 0
    ensures n <= spin ==> Run(s, Alone(n)).sem == Sem(0, 0) && !Run(s, Alone(n)).waiter.Returned?
    ensures n > spin && t != Zero ==> Run(s, Alone(n)) == s.(sem := Sem(-1, 0), waiter := Kernel)
    ensures n > spin + 1 && t == Zero ==> Run(s, Alone(n)) == s.(waiter := Returned(false))
  {
    if n <= spin {
      StillLoading(s, t, spin, n);
    } else {
      AfterSpinning(s, t, spin, n - spin);
      Registered(s.(waiter := Register(t)), t, n - spin);
    }
  }

  lemma WaitsOut(s: System, s': System, t: Timeout, spin: nat, n: nat)
    requires s.sem == Sem(0, 0) && s'.waiter == SpinLoad(t, spin) && s'.sem == Sem(0, 0) && spin > 0 && n > 0
    requires s' == Apply(s, WaiterMove(true))
    ensures n <= spin + 1 ==> Run(s, Alone(n)).sem == Sem(0, 0) && !Run(s, Alone(n)).waiter.Returned?
    ensures n > spin + 1 && t != Zero ==> Run(s, Alone(n)) == s'.(sem := Sem(-1, 0), waiter := Kernel)
    ensures n > spin + 2 && t == Zero ==> Run(s, Alone(n)) == s'.(waiter := Returned(false))
  {
    AloneStep(s, n);
    SpinsOut(s', t, spin, n - 1);
  }

  /** A wait that is left alone with an empty semaphore performs 1025 loads, registers with its 1026th
      operation, and from then on sleeps for good; but with timeout zero it takes the registration back and
      fails with its 1027th. */
  lemma UnsignalledWait(s: System, t: Timeout, n: nat)
    requires s.waiter == TryLoad(Wait(t)) && s.sem == Sem(0, 0)
    ensures n <= 1025 ==> Run(s, Alone(n)).sem == Sem(0, 0) && !Run(s, Alone(n)).waiter.Returned?
    ensures n >= 1026 && t != Zero ==> Run(s, Alone(n)) == s.(sem := Sem(-1, 0), waiter := Kernel)
    ensures n >= 1027 && t == Zero ==> Run(s, Alone(n)) == s.(waiter := Returned(false))
  {
    if n > 0 { WaitsOut(s, s.(waiter := SpinLoad(t, SPIN)), t, SPIN, n); }
  }

  /** A kernel wait that fails while no permit is there makes the wait fail in its next operation, with the
      registration taken back. */
  lemma TimeoutFails(s: System, take: bool)
    requires Valid(s) && s.waiter == Kernel && s.given == s.taken
    ensures var s' := Apply(Apply(s, WaiterMove(false)), WaiterMove(take));
            s' == s.(sem := Sem(0, 0), waiter := Returned(false))
  {
  }
}
