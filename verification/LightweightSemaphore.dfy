/** The `LightweightSemaphore` of atomicops.h as a protocol between one waiting and one signalling
    thread. Every atomic operation on `m_count` and every operation on the kernel semaphore is one
    step; a kernel wait may fail at any time. */
module LightweightSemaphores {

  /** `m_count` and the value of the kernel semaphore `m_sema`. */
  datatype Sem = Sem(count: int, kernel: nat)

  /** The sign of `timeout_usecs`. */
  datatype Timeout = Forever | Zero | Micros

  datatype Mode = Try | Wait(timeout: Timeout)

  const SPIN: nat := 1024

  /** Where the waiting thread stands: the next atomic operation it will perform. */
  datatype Waiter =
    | Idle
    | TryLoad(mode: Mode)
    | TryTake
    | SpinLoad(timeout: Timeout, left: nat)
    | SpinTake
    | Register(timeout: Timeout)
    | Kernel
    | Undo
    | Redo
    | KernelTry
    | Returned(ok: bool)

  /** One atomic step of the waiting thread. `take` says whether a kernel wait is to succeed; with
      `take` set and the kernel semaphore at zero a blocking wait stays where it is. */
  function WaiterStep(s: Sem, w: Waiter, take: bool): (Sem, Waiter) {
    match w
    case Idle => (s, w)
    case TryLoad(mode) =>
      if s.count > 0 then (s, TryTake)
      else if mode.Try? then (s, Returned(false))
      else (s, SpinLoad(mode.timeout, SPIN))
    case TryTake => (s.(count := s.count - 1), Returned(true))
    case SpinLoad(t, left) =>
      if s.count > 0 then (s, SpinTake)
      else (s, if left <= 1 then Register(t) else SpinLoad(t, left - 1))
    case SpinTake => (s.(count := s.count - 1), Returned(true))
    case Register(t) => (s.(count := s.count - 1), AfterRegister(s.count, t))
    case Kernel =>
      if !take then (s, Undo)
      else if s.kernel > 0 then (s.(kernel := s.kernel - 1), Returned(true))
      else (s, Kernel)
    case Undo => (s.(count := s.count + 1), if s.count < 0 then Returned(false) else Redo)
    case Redo => (s.(count := s.count - 1), if s.count > 0 then KernelTry else Undo)
    case KernelTry =>
      if take && s.kernel > 0 then (s.(kernel := s.kernel - 1), Returned(true)) else (s, Undo)
    case Returned(_) => (s, w)
  }

  function AfterRegister(oldCount: int, t: Timeout): Waiter {
    if oldCount > 0 then Returned(true) else if t.Zero? then Undo else Kernel
  }

  /** `signal(1)`: the fetch_add, and then, when the old count was negative, the kernel post. */
  function SignalStep(s: Sem, posting: bool): (Sem, bool) {
    if posting then (s.(kernel := s.kernel + 1), false)
    else (s.(count := s.count + 1), s.count < 0)
  }

  function AvailableApprox(s: Sem): nat {
    if s.count > 0 then s.count else 0
  }

  /** The waiting thread has decremented the count without having obtained a permit. */
  function Waiting(w: Waiter): nat {
    if w.Kernel? || w.Undo? || w.Redo? || w.KernelTry? then 1 else 0
  }

  /** The waiting thread is between the two fetch_adds of its rollback loop. */
  function RollbackGap(w: Waiter): nat {
    if w.Redo? then 1 else 0
  }

  /** The accounting invariant, for `permits` permits not yet consumed. */
  ghost predicate Accounted(s: Sem, w: Waiter, posting: bool, permits: int) {
    && permits >= 0
    && s.count == permits - Waiting(w) + RollbackGap(w)
    && s.kernel + (if posting then 1 else 0) == (if Waiting(w) == 1 && permits >= 1 then 1 else 0)
    && (w.TryTake? || w.SpinTake? || w.Redo? || w.KernelTry? ==> permits >= 1)
  }

  /** The permits a waiter step consumes: one exactly when the wait returns true. */
  function Consumed(w: Waiter, w': Waiter): nat {
    if !w.Returned? && w' == Returned(true) then 1 else 0
  }

  lemma WaiterStepAccounted(s: Sem, w: Waiter, posting: bool, permits: int, take: bool)
    requires Accounted(s, w, posting, permits)
    ensures var (s', w') := WaiterStep(s, w, take);
            && Accounted(s', w', posting, permits - Consumed(w, w'))
            && (w' == Returned(false) && !w.Returned? ==>
                  permits == 0 && s'.count == 0 && s'.kernel == 0 && !posting)
  {
  }

  lemma SignalStepAccounted(s: Sem, w: Waiter, posting: bool, permits: int)
    requires Accounted(s, w, posting, permits)
    ensures var (s', posting') := SignalStep(s, posting);
            Accounted(s', w, posting', if posting then permits else permits + 1)
    ensures -1 <= s.count <= permits
  {
  }

  // ---------------------------------------------------------------------------------------------
  // The protocol as a whole

  /** `given` counts the initial permits and the signals, `taken` the waits that returned true. */
  datatype System = System(sem: Sem, waiter: Waiter, posting: bool, given: nat, taken: nat)

  datatype Move = Call(mode: Mode) | WaiterMove(take: bool) | SignallerMove

  function Init(initialCount: nat): System {
    System(Sem(initialCount, 0), Idle, false, initialCount, 0)
  }

  function Apply(s: System, m: Move): System {
    match m
    case Call(mode) =>
      if s.waiter.Idle? || s.waiter.Returned? then s.(waiter := TryLoad(mode)) else s
    case WaiterMove(take) =>
      var (sem, w) := WaiterStep(s.sem, s.waiter, take);
      s.(sem := sem, waiter := w, taken := s.taken + Consumed(s.waiter, w))
    case SignallerMove =>
      var (sem, posting) := SignalStep(s.sem, s.posting);
      s.(sem := sem, posting := posting, given := if s.posting then s.given else s.given + 1)
  }

  function Run(s: System, moves: seq<Move>): System
    decreases |moves|
  {
    if moves == [] then s else Run(Apply(s, moves[0]), moves[1..])
  }

  ghost predicate Valid(s: System) {
    Accounted(s.sem, s.waiter, s.posting, s.given - s.taken)
  }

  lemma ApplyInv(s: System, m: Move)
    requires Valid(s)
    ensures Valid(Apply(s, m))
  {
    match m
    case Call(_) =>
    case WaiterMove(take) =>
      WaiterStepAccounted(s.sem, s.waiter, s.posting, s.given - s.taken, take);
    case SignallerMove => SignalStepAccounted(s.sem, s.waiter, s.posting, s.given - s.taken);
  }

  lemma {:induction false} RunInv(s: System, moves: seq<Move>)
    requires Valid(s)
    ensures Valid(Run(s, moves))
    decreases |moves|
  {
    if moves != [] {
      ApplyInv(s, moves[0]);
      RunInv(Apply(s, moves[0]), moves[1..]);
    }
  }

  /** In every reachable state the count is the permits, less a registered waiter, plus one inside
      the rollback gap; a kernel post is stored or pending exactly when a waiter is registered and a
      permit is there for it; the signaller's `oldCount >= -1` holds; and the advertised number of
      permits is at most the true one and misses at most the one a registered waiter claims. */
  lemma SemaphoreAccounting(initialCount: nat, moves: seq<Move>)
    ensures var s := Run(Init(initialCount), moves);
            var permits := s.given - s.taken;
            && permits >= 0
            && s.sem.count == permits - Waiting(s.waiter) + RollbackGap(s.waiter)
            && s.sem.kernel + (if s.posting then 1 else 0) <= 1
            && (s.sem.kernel + (if s.posting then 1 else 0) == 1
                <==> Waiting(s.waiter) == 1 && permits >= 1)
            && s.sem.count >= -1
            && permits - Waiting(s.waiter) <= AvailableApprox(s.sem) <= permits
  {
    RunInv(Init(initialCount), moves);
  }

  predicate NoCall(moves: seq<Move>) {
    forall i :: 0 <= i < |moves| ==> !moves[i].Call?
  }

  lemma {:induction false} RunOneCall(s: System, moves: seq<Move>)
    requires Valid(s) && NoCall(moves)
    ensures var s' := Run(s, moves);
            && s'.taken == s.taken + Consumed(s.waiter, s'.waiter)
            && (s'.waiter == Returned(false) && !s.waiter.Returned? ==>
                  s'.sem.count == s'.given - s'.taken && s'.sem.kernel == 0 && !s'.posting)
            && (s.waiter.Returned? ==> s'.waiter == s.waiter)
    decreases |moves|
  {
    if moves != [] {
      ApplyInv(s, moves[0]);
      var t := Apply(s, moves[0]);
      RunOneCall(t, moves[1..]);
      RunInv(t, moves[1..]);
    }
  }

  /** A wait of any kind, in any race with the signaller: false leaves the permits alone, no
      registration and no kernel post behind; true consumes exactly one permit. */
  lemma TimedWaitIsExact(initialCount: nat, before: seq<Move>, mode: Mode, during: seq<Move>)
    requires Run(Init(initialCount), before).waiter.Idle? || Run(Init(initialCount), before).waiter.Returned?
    requires NoCall(during)
    ensures var s := Apply(Run(Init(initialCount), before), Call(mode));
            var s' := Run(s, during);
            && s'.taken == (if s'.waiter == Returned(true) then s.taken + 1 else s.taken)
            && (s'.waiter == Returned(false) ==>
                  s'.sem == Sem(s'.given - s'.taken, 0) && !s'.posting)
            && (s'.waiter == Returned(true) ==>
                  s'.sem == Sem(s'.given - s'.taken, 0) && !s'.posting)
  {
    var b := Run(Init(initialCount), before);
    RunInv(Init(initialCount), before);
    ApplyInv(b, Call(mode));
    RunOneCall(Apply(b, Call(mode)), during);
    RunInv(Apply(b, Call(mode)), during);
  }

  /** A wait reports failure only at a moment at which there is no permit at all. */
  lemma FailureMeansNoPermit(initialCount: nat, moves: seq<Move>, take: bool)
    ensures var s := Run(Init(initialCount), moves);
            var s' := Apply(s, WaiterMove(take));
            !s.waiter.Returned? && s'.waiter == Returned(false) ==> s'.given == s'.taken
  {
    RunInv(Init(initialCount), moves);
    var s := Run(Init(initialCount), moves);
    WaiterStepAccounted(s.sem, s.waiter, s.posting, s.given - s.taken, take);
  }

  // ---------------------------------------------------------------------------------------------
  // Progress of the rollback loop

  /** Steps left in a rollback iteration once the kernel post has landed. */
  function RollbackRank(w: Waiter): nat {
    match w
    case Undo => 3
    case Redo => 2
    case KernelTry => 1
    case _ => 0
  }

  function WaiterMoves(moves: seq<Move>): nat {
    if moves == [] then 0
    else (if moves[0].WaiterMove? then 1 else 0) + WaiterMoves(moves[1..])
  }

  /** A rollback iteration that comes round again although its kernel try was allowed to succeed
      proves that the signaller stands between its fetch_add and its kernel post. */
  lemma RetryMeansPostPending(s: System)
    requires Valid(s) && s.waiter.KernelTry?
    ensures Apply(s, WaiterMove(true)).waiter.Undo? <==> s.posting
    ensures s.posting ==> Apply(s, SignallerMove).sem.kernel == 1
  {
  }

  /** Once the post has landed, the loop returns true within its next three operations, whatever
      the signaller does in between. */
  lemma {:induction false} RollbackTerminates(s: System, moves: seq<Move>)
    requires Valid(s) && RollbackRank(s.waiter) > 0
    requires s.sem.kernel == 1
    requires forall i :: 0 <= i < |moves| ==> moves[i] == WaiterMove(true) || moves[i].SignallerMove?
    requires WaiterMoves(moves) >= RollbackRank(s.waiter)
    ensures Run(s, moves).waiter == Returned(true)
    decreases |moves|
  {
    ApplyInv(s, moves[0]);
    var t := Apply(s, moves[0]);
    if t.waiter.Returned? {
      forall i | 0 <= i < |moves[1..]| ensures !moves[1..][i].Call? { assert moves[1..][i] == moves[i + 1]; }
      RunOneCall(t, moves[1..]);
    } else {
      forall i | 0 <= i < |moves[1..]|
        ensures moves[1..][i] == WaiterMove(true) || moves[1..][i].SignallerMove?
      {
        assert moves[1..][i] == moves[i + 1];
      }
      RollbackTerminates(t, moves[1..]);
    }
  }

  // ---------------------------------------------------------------------------------------------
  // The code itself

  /** What a wait that is given finitely many moves has come to. */
  datatype Outcome = Done(ok: bool) | Suspended(at: Waiter)

  function At(o: Outcome): Waiter {
    match o
    case Done(ok) => Returned(ok)
    case Suspended(w) => w
  }

  /** The semaphore object with the structured code of its waiting functions. The other thread runs
      between any two of their atomic operations: `env` lists, in order, what happens, and every
      operation of the waiting thread uses up one `WaiterMove`. */
  class LightweightSemaphore {
    var count: int
    var kernel: nat
    var posting: bool
    ghost var given: nat
    ghost var taken: nat

    ghost function Abs(w: Waiter): System
      reads this
    {
      System(Sem(count, kernel), w, posting, given, taken)
    }

    constructor (initialCount: nat)
      ensures Abs(Idle) == Init(initialCount)
    {
      count, kernel, posting, given, taken := initialCount, 0, false, initialCount, 0;
    }

    /** The signalling thread's next operation: the fetch_add, or the kernel post that it owes. */
    method SignalNext()
      modifies this
      ensures forall w :: Abs(w) == Apply(old(Abs(w)), SignallerMove)
    {
      if posting {
        kernel, posting := kernel + 1, false;
      } else {
        var oldCount := count;
        count, given := count + 1, given + 1;
        posting := oldCount < 0;
      }
    }

    /** `signal()` as a whole: one more permit, and one kernel post if the old count was negative. The
        waiting thread, at `w`, runs in between as `env` says; `done` is false when `env` ends before
        the signalling thread is scheduled for its post. */
    method Signal(w: Waiter, env: seq<Move>) returns (done: bool, w': Waiter, rest: seq<Move>)
      requires !posting
      modifies this
      ensures Run(old(Abs(w)), [SignallerMove] + env) == Run(Abs(w'), rest)
      ensures given == old(given) + 1
      ensures old(count) >= 0 ==> done && kernel == old(kernel) && rest == env
      ensures done ==> !posting
    {
      var oldCount := count;
      ghost var s := Abs(w);
      count, given, posting := count + 1, given + 1, oldCount < 0;
      assert ([SignallerMove] + env)[1..] == env;
      done, w', rest := true, w, env;
      if oldCount < 0 {
        done, w', rest := WaiterRuns(w, env);
        if done { kernel, posting := kernel + 1, false; }
      }
    }

    /** The waiting thread runs until the signalling thread is scheduled for the post that it owes. */
    method WaiterRuns(w: Waiter, env: seq<Move>) returns (scheduled: bool, w': Waiter, rest: seq<Move>)
      modifies this
      ensures scheduled ==> Run(old(Abs(w)), env) == Run(Apply(Abs(w'), SignallerMove), rest)
      ensures !scheduled ==> Run(old(Abs(w)), env) == Run(Abs(w'), rest) && rest == []
      ensures posting == old(posting) && given == old(given)
    {
      w', rest := w, env;
      while rest != [] && !rest[0].SignallerMove?
        invariant Run(Abs(w'), rest) == Run(old(Abs(w)), env)
        invariant posting == old(posting) && given == old(given)
        decreases |rest|
      {
        match rest[0] {
          case Call(mode) => if w'.Idle? || w'.Returned? { w' := TryLoad(mode); }
          case WaiterMove(take) => w' := WaiterNext(w', take);
        }
        rest := rest[1..];
      }
      if rest == [] { return false, w', rest; }
      return true, w', rest[1..];
    }

    method WaiterNext(w: Waiter, take: bool) returns (w': Waiter)
      modifies this
      ensures Abs(w') == Apply(old(Abs(w)), WaiterMove(take))
    {
      var (sem, next) := WaiterStep(Sem(count, kernel), w, take);
      count, kernel, taken := sem.count, sem.kernel, taken + Consumed(w, next);
      w' := next;
    }

    /** The signalling thread runs until the waiting thread is scheduled for its next operation, at
        `w`; `scheduled` is false when `env` ends before that. */
    method Interfere(env: seq<Move>, ghost w: Waiter) returns (scheduled: bool, take: bool, rest: seq<Move>)
      requires !w.Idle? && !w.Returned?
      modifies this
      ensures scheduled ==> |rest| < |env|
      ensures scheduled ==> Run(old(Abs(w)), env) == Run(Apply(Abs(w), WaiterMove(take)), rest)
      ensures !scheduled ==> Run(old(Abs(w)), env) == Run(Abs(w), rest) && rest == []
    {
      rest := env;
      while rest != [] && !rest[0].WaiterMove?
        invariant Run(Abs(w), rest) == Run(old(Abs(w)), env) && |rest| <= |env|
        decreases |rest|
      {
        if rest[0].SignallerMove? { SignalNext(); }
        rest := rest[1..];
      }
      if rest == [] { return false, false, rest; }
      return true, rest[0].take, rest[1..];
    }

    method TryWait(env: seq<Move>, mode: Mode) returns (o: Outcome, rest: seq<Move>)
      modifies this
      ensures Run(old(Abs(TryLoad(mode))), env) == Run(Abs(At(o)), rest)
      ensures o.Suspended? ==> rest == [] || (mode.Wait? && o == Suspended(SpinLoad(mode.timeout, SPIN)))
      ensures mode.Wait? ==> o != Done(false)
    {
      var scheduled, take;
      scheduled, take, rest := Interfere(env, TryLoad(mode));
      if !scheduled { return Suspended(TryLoad(mode)), rest; }
      if count > 0 {
        o, rest := Take(rest, TryTake);
      } else if mode.Try? {
        o := Done(false);
      } else {
        o := Suspended(SpinLoad(mode.timeout, SPIN));
      }
    }

    /** The fetch_add(-1) that follows a load of a positive count. */
    method Take(env: seq<Move>, w: Waiter) returns (o: Outcome, rest: seq<Move>)
      requires w.TryTake? || w.SpinTake?
      modifies this
      ensures Run(old(Abs(w)), env) == Run(Abs(At(o)), rest)
      ensures o == Done(true) || (o == Suspended(w) && rest == [])
    {
      var scheduled, take;
      scheduled, take, rest := Interfere(env, w);
      if !scheduled { return Suspended(w), rest; }
      count, taken := count - 1, taken + 1;
      o := Done(true);
    }

    method WaitWithPartialSpinning(env: seq<Move>, timeout: Timeout) returns (o: Outcome, rest: seq<Move>)
      modifies this
      ensures Run(old(Abs(SpinLoad(timeout, SPIN))), env) == Run(Abs(At(o)), rest)
      ensures o.Suspended? ==> rest == []
    {
      o, rest := Spin(env, timeout);
      if o == Suspended(Register(timeout)) {
        o, rest := RegisterAndWait(rest, timeout);
      }
    }

    /** What follows the spin loop: the registration, the kernel wait and the rollback loop. */
    method RegisterAndWait(env: seq<Move>, timeout: Timeout) returns (o: Outcome, rest: seq<Move>)
      modifies this
      ensures Run(old(Abs(Register(timeout))), env) == Run(Abs(At(o)), rest)
      ensures o.Suspended? ==> rest == []
    {
      var scheduled, take;
      scheduled, take, rest := Interfere(env, Register(timeout));
      if !scheduled { return Suspended(Register(timeout)), rest; }
      var oldCount := count;
      count := count - 1;
      if oldCount > 0 {
        taken := taken + 1;
        return Done(true), rest;
      }
      o := Suspended(Undo);
      if !timeout.Zero? {
        o, rest := KernelWait(rest);
      }
      if o == Suspended(Undo) {
        o, rest := Rollback(rest);
      }
    }

    method Spin(env: seq<Move>, timeout: Timeout) returns (o: Outcome, rest: seq<Move>)
      modifies this
      ensures Run(old(Abs(SpinLoad(timeout, SPIN))), env) == Run(Abs(At(o)), rest)
      ensures o.Suspended? ==> rest == [] || o == Suspended(Register(timeout))
    {
      rest := env;
      var spin := SPIN;
      while spin > 0
        invariant 0 <= spin <= SPIN
        invariant Run(old(Abs(SpinLoad(timeout, SPIN))), env)
               == Run(Abs(if spin > 0 then SpinLoad(timeout, spin) else Register(timeout)), rest)
      {
        var scheduled, take;
        scheduled, take, rest := Interfere(rest, SpinLoad(timeout, spin));
        if !scheduled { return Suspended(SpinLoad(timeout, spin)), rest; }
        if count > 0 {
          o, rest := Take(rest, SpinTake);
          return o, rest;
        }
        spin := spin - 1;
      }
      o := Suspended(Register(timeout));
    }

    /** `m_sema.wait()` and `m_sema.timed_wait()`: blocks while the kernel semaphore is zero and the
        wait is not to fail. A failed wait goes on to the rollback. */
    method KernelWait(env: seq<Move>) returns (o: Outcome, rest: seq<Move>)
      modifies this
      ensures Run(old(Abs(Kernel)), env) == Run(Abs(At(o)), rest)
      ensures o == Done(true) || o == Suspended(Undo) || (o == Suspended(Kernel) && rest == [])
    {
      rest := env;
      while true
        invariant Run(old(Abs(Kernel)), env) == Run(Abs(Kernel), rest)
        decreases |rest|
      {
        var scheduled, take;
        scheduled, take, rest := Interfere(rest, Kernel);
        if !scheduled { return Suspended(Kernel), rest; }
        if !take { return Suspended(Undo), rest; }
        if kernel > 0 {
          kernel, taken := kernel - 1, taken + 1;
          return Done(true), rest;
        }
      }
    }

    method Rollback(env: seq<Move>) returns (o: Outcome, rest: seq<Move>)
      modifies this
      ensures Run(old(Abs(Undo)), env) == Run(Abs(At(o)), rest)
      ensures o.Suspended? ==> rest == []
    {
      rest := env;
      while true
        invariant Run(old(Abs(Undo)), env) == Run(Abs(Undo), rest)
        decreases |rest|
      {
        var scheduled, take;
        scheduled, take, rest := Interfere(rest, Undo);
        if !scheduled { return Suspended(Undo), rest; }
        var oldCount := count;
        count := count + 1;
        if oldCount < 0 { return Done(false), rest; }
        o, rest := Retry(rest);
        if o != Suspended(Undo) { return; }
      }
    }

    /** The second half of a rollback iteration; `Suspended(Undo)` sends the loop round again. */
    method Retry(env: seq<Move>) returns (o: Outcome, rest: seq<Move>)
      modifies this
      ensures Run(old(Abs(Redo)), env) == Run(Abs(At(o)), rest)
      ensures o == Suspended(Undo) ==> |rest| < |env|
      ensures o.Suspended? && o != Suspended(Undo) ==> rest == []
    {
      var scheduled, take;
      scheduled, take, rest := Interfere(env, Redo);
      if !scheduled { return Suspended(Redo), rest; }
      var oldCount := count;
      count := count - 1;
      o := Suspended(Undo);
      if oldCount > 0 {
        o, rest := TryKernel(rest);
      }
    }

    /** The `m_sema.try_wait()` of the rollback loop. */
    method TryKernel(env: seq<Move>) returns (o: Outcome, rest: seq<Move>)
      modifies this
      ensures Run(old(Abs(KernelTry)), env) == Run(Abs(At(o)), rest)
      ensures o == Suspended(Undo) ==> |rest| < |env|
      ensures o.Suspended? && o != Suspended(Undo) ==> rest == []
    {
      var scheduled, take;
      scheduled, take, rest := Interfere(env, KernelTry);
      if !scheduled { return Suspended(KernelTry), rest; }
      if take && kernel > 0 {
        kernel, taken := kernel - 1, taken + 1;
        return Done(true), rest;
      }
      o := Suspended(Undo);
    }

    method Wait(env: seq<Move>, timeout: Timeout) returns (o: Outcome, rest: seq<Move>)
      modifies this
      ensures Run(old(Abs(TryLoad(Mode.Wait(timeout)))), env) == Run(Abs(At(o)), rest)
      ensures o.Suspended? ==> rest == []
    {
      o, rest := TryWait(env, Mode.Wait(timeout));
      if o == Suspended(SpinLoad(timeout, SPIN)) {
        o, rest := WaitWithPartialSpinning(rest, timeout);
      }
    }
  }
}
