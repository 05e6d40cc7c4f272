/** Continuous collection: callers of Start, Stop, Cleanup and CollectAll, and the collection
    goroutine, interleaved step by step around one mutex, one flag and two replaceable channels
    (internal/infrastructure/collector/linux/collector.go). */
module Collectors {
  import opened Basics

  /** Channel identities: the pair that a goroutine is started with. */
  datatype Chans = Chans(stop: nat, done: nat)

  /** Where a calling thread stands; it holds the mutex in the states marked [lock]. */
  datatype Caller =
    | Idle
    | StartLocking(ctx: nat, callback: bool)
    | StartChecking(ctx: nat, callback: bool)                 // [lock] about to test `continuous`
    | StartRefused                                            // [lock] about to unlock, busy
    | StartUnlocking(ctx: nat, callback: bool, born: Chans)   // [lock] flag set
    | StartSpawning(ctx: nat, callback: bool, born: Chans)    // about to run the go statement
    | StopLocking
    | StopChecking                                            // [lock] about to test `continuous`
    | StopRefused                                             // [lock] about to unlock, not running
    | StopClosing                                             // [lock] about to close the stop channel
    | StopReading                                             // [lock] about to look up the done channel
    | StopWaiting(on: nat)                                    // [lock] blocked receiving
    | StopClearing                                            // [lock] about to clear the flag
    | StopRenewingStop                                        // [lock] about to replace the stop channel
    | StopRenewingDone                                        // [lock] about to replace the done channel
    | StopReleasing                                           // [lock] about to unlock and return nil
    | CleanupReading                                          // about to read the flag without the lock
    | CollectLocking
    | CollectHolding                                          // [lock] inside CollectAll
  {
    predicate HoldsLock() {
      StartChecking? || StartRefused? || StartUnlocking? || StopChecking? || StopRefused? || StopClosing?
      || StopReading? || StopWaiting? || StopClearing? || StopRenewingStop? || StopRenewingDone?
      || StopReleasing? || CollectHolding?
    }

    /** Start has been accepted and its goroutine does not exist yet. */
    predicate Pending() {
      StartUnlocking? || StartSpawning?
    }
  }

  datatype LoopPc =
    | Spawned               // before the deferred close captures the done channel
    | AtSelect              // about to look up the stop channel
    | Selecting(stop: nat)  // blocked on cancellation, the stop channel and the ticker
    | WantsLock             // a tick was taken; CollectAll is about to lock
    | Collecting            // [lock] inside CollectAll
    | CallingBack(t: nat)   // in the callback, whose own calls are those of calling thread t
    | Exiting               // about to run the deferred close
    | Exited

  datatype Loop = Loop(pc: LoopPc, ctx: nat, callback: bool, born: Chans, deferred: Option<nat>)

  datatype Holder = Free | ByCaller(t: nat) | ByLoop(g: nat)

  /** Who carries the accepted Start forward; no step depends on it. */
  datatype Owner = Nobody | Starter(t: nat) | Runner(g: nat)

  datatype State = State(
    callers: seq<Caller>,
    loops: seq<Loop>,
    lock: Holder,
    continuous: bool,
    chans: Chans,
    closed: set<nat>,
    next: nat,
    cancelled: set<nat>,
    panicked: bool,
    owner: Owner)

  datatype Action =
    | CallStart(t: nat, ctx: nat, callback: bool)
    | CallStop(t: nat)
    | CallCleanup(t: nat)
    | CallCollect(t: nat)
    | Advance(t: nat)
    | Cancel(ctx: nat)
    | Tick(g: nat)
    | CallBack(g: nat, t: nat)
    | SeeStop(g: nat)
    | SeeCancel(g: nat)
    | LoopAdvance(g: nat)

  function Initial(threads: nat): State {
    State(seq(threads, _ => Idle), [], Free, false, Chans(0, 1), {}, 2, {}, false, Nobody)
  }

  predicate CallerCanMove(s: State, c: Caller) {
    match c
    case Idle => false
    case StartLocking(_, _) => s.lock.Free?
    case StopLocking => s.lock.Free?
    case CollectLocking => s.lock.Free?
    case StopWaiting(on) => on in s.closed
    case _ => true
  }

  predicate Enabled(s: State, a: Action) {
    && !s.panicked
    && match a
       case CallStart(t, _, _) => t < |s.callers| && s.callers[t].Idle?
       case CallStop(t) => t < |s.callers| && s.callers[t].Idle?
       case CallCleanup(t) => t < |s.callers| && s.callers[t].Idle?
       case CallCollect(t) => t < |s.callers| && s.callers[t].Idle?
       case Advance(t) => t < |s.callers| && CallerCanMove(s, s.callers[t])
       case Cancel(_) => true
       case Tick(g) => g < |s.loops| && s.loops[g].pc.Selecting?
       case SeeStop(g) => g < |s.loops| && s.loops[g].pc.Selecting? && s.loops[g].pc.stop in s.closed
       case SeeCancel(g) => g < |s.loops| && s.loops[g].pc.Selecting? && s.loops[g].ctx in s.cancelled
       case CallBack(g, t) =>
         && g < |s.loops| && s.loops[g].pc.Collecting? && s.loops[g].callback
         && t < |s.callers| && s.callers[t].Idle?
       case LoopAdvance(g) =>
         && g < |s.loops|
         && match s.loops[g].pc
            case Selecting(_) => false
            case WantsLock => s.lock.Free?
            case Collecting => !s.loops[g].callback
            case CallingBack(t) => t < |s.callers| && s.callers[t].Idle?
            case Exited => false
            case _ => true
  }

  function At(s: State, t: nat, c: Caller): State
    requires t < |s.callers|
  {
    s.(callers := s.callers[t := c])
  }

  function LoopAt(s: State, g: nat, pc: LoopPc): State
    requires g < |s.loops|
  {
    s.(loops := s.loops[g := s.loops[g].(pc := pc)])
  }

  /** Closing a closed channel panics. */
  function CloseChan(s: State, ch: nat): State {
    if ch in s.closed then s.(panicked := true) else s.(closed := s.closed + {ch})
  }

  function CallerStep(s: State, t: nat): State
    requires t < |s.callers| && CallerCanMove(s, s.callers[t])
  {
    match s.callers[t]
    case StartLocking(ctx, callback) => At(s, t, StartChecking(ctx, callback)).(lock := ByCaller(t))
    case StartChecking(ctx, callback) =>
      if s.continuous then At(s, t, StartRefused)
      else At(s, t, StartUnlocking(ctx, callback, s.chans)).(continuous := true, owner := Starter(t))
    case StartRefused => At(s, t, Idle).(lock := Free)
    case StartUnlocking(ctx, callback, born) => At(s, t, StartSpawning(ctx, callback, born)).(lock := Free)
    case StartSpawning(ctx, callback, born) =>
      At(s, t, Idle).(loops := s.loops + [Loop(Spawned, ctx, callback, born, None)], owner := Runner(|s.loops|))
    case StopLocking => At(s, t, StopChecking).(lock := ByCaller(t))
    case StopChecking => At(s, t, if s.continuous then StopClosing else StopRefused)
    case StopRefused => At(s, t, Idle).(lock := Free)
    case StopClosing => CloseChan(At(s, t, StopReading), s.chans.stop)
    case StopReading => At(s, t, StopWaiting(s.chans.done))
    case StopWaiting(_) => At(s, t, StopClearing)
    case StopClearing => At(s, t, StopRenewingStop).(continuous := false)
    case StopRenewingStop => At(s, t, StopRenewingDone).(chans := s.chans.(stop := s.next), next := s.next + 1)
    case StopRenewingDone => At(s, t, StopReleasing).(chans := s.chans.(done := s.next), next := s.next + 1)
    case StopReleasing => At(s, t, Idle).(lock := Free)
    case CleanupReading => At(s, t, if s.continuous then StopLocking else Idle)
    case CollectLocking => At(s, t, CollectHolding).(lock := ByCaller(t))
    case CollectHolding => At(s, t, Idle).(lock := Free)
  }

  function LoopStep(s: State, g: nat): State
    requires g < |s.loops|
  {
    var l := s.loops[g];
    match l.pc
    case Spawned => s.(loops := s.loops[g := l.(pc := AtSelect, deferred := Some(s.chans.done))])
    case AtSelect => LoopAt(s, g, Selecting(s.chans.stop))
    case Selecting(_) => s
    case WantsLock => LoopAt(s, g, Collecting).(lock := ByLoop(g))
    case Collecting => LoopAt(s, g, AtSelect).(lock := Free)
    case CallingBack(_) => LoopAt(s, g, AtSelect)
    case Exiting =>
      var n := LoopAt(s, g, Exited).(owner := Nobody);
      if l.deferred.Some? then CloseChan(n, l.deferred.value) else n
    case Exited => s
  }

  function Step(s: State, a: Action): State
    requires Enabled(s, a)
  {
    match a
    case CallStart(t, ctx, callback) => At(s, t, StartLocking(ctx, callback))
    case CallStop(t) => At(s, t, StopLocking)
    case CallCleanup(t) => At(s, t, CleanupReading)
    case CallCollect(t) => At(s, t, CollectLocking)
    case Advance(t) => CallerStep(s, t)
    case Cancel(ctx) => s.(cancelled := s.cancelled + {ctx})
    case Tick(g) => LoopAt(s, g, WantsLock)
    case SeeStop(g) => LoopAt(s, g, Exiting)
    case SeeCancel(g) => LoopAt(s, g, Exiting)
    case CallBack(g, t) => LoopAt(s, g, CallingBack(t)).(lock := Free)
    case LoopAdvance(g) => LoopStep(s, g)
  }

  ghost predicate Runs(s: State, acts: seq<Action>)
    decreases |acts|
  {
    acts == [] || (Enabled(s, acts[0]) && Runs(Step(s, acts[0]), acts[1..]))
  }

  ghost function Exec(s: State, acts: seq<Action>): State
    requires Runs(s, acts)
    decreases |acts|
  {
    if acts == [] then s else Exec(Step(s, acts[0]), acts[1..])
  }

  // ---- The invariant ----

  ghost predicate LockInv(s: State) {
    && (forall t :: 0 <= t < |s.callers| ==> (s.callers[t].HoldsLock() <==> s.lock == ByCaller(t)))
    && (forall g :: 0 <= g < |s.loops| ==> (s.loops[g].pc.Collecting? <==> s.lock == ByLoop(g)))
    && (s.lock.ByCaller? ==> s.lock.t < |s.callers|)
    && (s.lock.ByLoop? ==> s.lock.g < |s.loops|)
  }

  ghost predicate OwnerInv(s: State) {
    && (forall t :: 0 <= t < |s.callers| ==> (s.callers[t].Pending() <==> s.owner == Starter(t)))
    && (forall g :: 0 <= g < |s.loops| ==> (!s.loops[g].pc.Exited? <==> s.owner == Runner(g)))
    && (s.owner.Starter? ==> s.owner.t < |s.callers| && s.callers[s.owner.t].born == s.chans)
    && (s.owner.Runner? ==> s.owner.g < |s.loops| && LoopInv(s, s.loops[s.owner.g]))
    && (!s.owner.Nobody? ==> s.continuous && s.chans.done !in s.closed)
    && (s.owner.Nobody? && s.continuous ==> s.chans.done in s.closed)
  }

  /** What a live goroutine knows of the channels. */
  ghost predicate LoopInv(s: State, l: Loop) {
    && l.born == s.chans
    && l.deferred == (if l.pc.Spawned? then None else Some(s.chans.done))
    && (l.pc.Selecting? ==> l.pc.stop == s.chans.stop)
    && (l.pc.CallingBack? ==> l.pc.t < |s.callers|)
  }

  ghost predicate ChanInv(s: State) {
    && s.chans.stop < s.next && s.chans.done < s.next && s.chans.stop != s.chans.done
    && (forall ch :: ch in s.closed ==> ch < s.next)
    && (s.chans.stop in s.closed ==>
          s.lock.ByCaller? && s.lock.t < |s.callers| && var c := s.callers[s.lock.t];
          c.StopReading? || c.StopWaiting? || c.StopClearing? || c.StopRenewingStop?)
    && (s.chans.done in s.closed && !s.continuous ==>
          s.lock.ByCaller? && s.lock.t < |s.callers| && var c := s.callers[s.lock.t];
          c.StopRenewingStop? || c.StopRenewingDone?)
  }

  /** What each stage of Stop relies on. */
  ghost predicate StopInv(s: State, c: Caller) {
    && (c.StopClosing? || c.StopReading? || c.StopWaiting? || c.StopClearing? ==> s.continuous)
    && (c.StopReading? || c.StopWaiting? ==> s.chans.stop in s.closed)
    && (c.StopWaiting? ==> c.on == s.chans.done)
    && (c.StopClearing? ==> s.chans.done in s.closed)
    && (c.StopRenewingStop? || c.StopRenewingDone? || c.StopReleasing? ==> !s.continuous)
  }

  ghost predicate Inv(s: State) {
    && !s.panicked
    && LockInv(s) && OwnerInv(s) && ChanInv(s)
    && forall t :: 0 <= t < |s.callers| ==> StopInv(s, s.callers[t])
  }

  lemma InitialInv(threads: nat)
    ensures Inv(Initial(threads))
  {
  }

  predicate InStop(c: Caller) {
    c.StopClosing? || c.StopReading? || c.StopWaiting? || c.StopClearing? || c.StopRenewingStop?
    || c.StopRenewingDone? || c.StopReleasing?
  }

  lemma StopStepKeepsInv(s: State, t: nat)
    requires Inv(s) && t < |s.callers| && CallerCanMove(s, s.callers[t]) && InStop(s.callers[t])
    ensures Inv(CallerStep(s, t))
  {
    var n := CallerStep(s, t);
    assert s.lock == ByCaller(t);
    assert LockInv(n);
    assert OwnerInv(n);
    assert ChanInv(n);
  }

  predicate InStart(c: Caller) {
    c.StartLocking? || c.StartChecking? || c.StartRefused? || c.Pending()
  }

  lemma StartStepKeepsInv(s: State, t: nat)
    requires Inv(s) && t < |s.callers| && CallerCanMove(s, s.callers[t]) && InStart(s.callers[t])
    ensures Inv(CallerStep(s, t))
  {
    var n := CallerStep(s, t);
    assert LockInv(n);
    assert OwnerInv(n);
    assert ChanInv(n);
  }

  predicate InCollect(c: Caller) {
    c.CollectLocking? || c.CollectHolding?
  }

  lemma CollectStepKeepsInv(s: State, t: nat)
    requires Inv(s) && t < |s.callers| && CallerCanMove(s, s.callers[t]) && InCollect(s.callers[t])
    ensures Inv(CallerStep(s, t))
  {
    var n := CallerStep(s, t);
    assert LockInv(n);
    assert OwnerInv(n);
    assert ChanInv(n);
  }

  /** The states before Stop has seen the flag. */
  predicate BeforeStop(c: Caller) {
    c.StopLocking? || c.StopChecking? || c.StopRefused? || c.CleanupReading?
  }

  lemma BeforeStopStepKeepsInv(s: State, t: nat)
    requires Inv(s) && t < |s.callers| && CallerCanMove(s, s.callers[t]) && BeforeStop(s.callers[t])
    ensures Inv(CallerStep(s, t))
  {
    var n := CallerStep(s, t);
    assert LockInv(n);
    assert OwnerInv(n);
    assert ChanInv(n);
  }

  lemma ExitStepKeepsInv(s: State, g: nat)
    requires Inv(s) && g < |s.loops| && s.loops[g].pc.Exiting?
    ensures Inv(LoopStep(s, g))
  {
    var n := LoopStep(s, g);
    assert LockInv(n);
    assert OwnerInv(n);
    assert ChanInv(n);
  }

  lemma LoopStepKeepsInv(s: State, g: nat)
    requires Inv(s) && Enabled(s, LoopAdvance(g)) && !s.loops[g].pc.Exiting?
    ensures Inv(LoopStep(s, g))
  {
    var n := LoopStep(s, g);
    assert LockInv(n);
    assert OwnerInv(n);
    assert ChanInv(n);
  }

  lemma CallKeepsInv(s: State, t: nat, c: Caller)
    requires Inv(s) && t < |s.callers| && s.callers[t].Idle?
    requires c.StartLocking? || c.StopLocking? || c.CleanupReading? || c.CollectLocking?
    ensures Inv(At(s, t, c))
  {
  }

  lemma SelectKeepsInv(s: State, g: nat, pc: LoopPc)
    requires Inv(s) && g < |s.loops| && s.loops[g].pc.Selecting? && (pc.WantsLock? || pc.Exiting?)
    ensures Inv(LoopAt(s, g, pc))
  {
  }

  lemma CallBackKeepsInv(s: State, g: nat, t: nat)
    requires Inv(s) && Enabled(s, CallBack(g, t))
    ensures Inv(LoopAt(s, g, CallingBack(t)).(lock := Free))
  {
  }

  lemma {:induction false} StepKeepsInv(s: State, a: Action)
    requires Inv(s) && Enabled(s, a)
    ensures Inv(Step(s, a))
  {
    hide LockInv, OwnerInv, ChanInv, StopInv, At, LoopAt, CallerStep, LoopStep;
    match a
    case CallStart(t, ctx, callback) => CallKeepsInv(s, t, StartLocking(ctx, callback));
    case CallStop(t) => CallKeepsInv(s, t, StopLocking);
    case CallCleanup(t) => CallKeepsInv(s, t, CleanupReading);
    case CallCollect(t) => CallKeepsInv(s, t, CollectLocking);
    case Advance(t) =>
      if InStop(s.callers[t]) {
        StopStepKeepsInv(s, t);
      } else if InStart(s.callers[t]) {
        StartStepKeepsInv(s, t);
      } else if InCollect(s.callers[t]) {
        CollectStepKeepsInv(s, t);
      } else {
        BeforeStopStepKeepsInv(s, t);
      }
    case Cancel(ctx) => CancelKeepsInv(s, ctx);
    case Tick(g) => SelectKeepsInv(s, g, WantsLock);
    case SeeStop(g) => SelectKeepsInv(s, g, Exiting);
    case SeeCancel(g) => SelectKeepsInv(s, g, Exiting);
    case CallBack(g, t) => CallBackKeepsInv(s, g, t);
    case LoopAdvance(g) =>
      if s.loops[g].pc.Exiting? {
        ExitStepKeepsInv(s, g);
      } else {
        LoopStepKeepsInv(s, g);
      }
  }

  lemma CancelKeepsInv(s: State, ctx: nat)
    requires Inv(s)
    ensures Inv(s.(cancelled := s.cancelled + {ctx}))
  {
  }

  lemma {:induction false} RunKeepsInv(s: State, acts: seq<Action>)
    requires Inv(s) && Runs(s, acts)
    ensures Inv(Exec(s, acts))
    decreases |acts|
  {
    if acts != [] {
      StepKeepsInv(s, acts[0]);
      RunKeepsInv(Step(s, acts[0]), acts[1..]);
    }
  }

  // ---- Safety over every interleaving ----

  /** In every reachable state at most one accepted Start is being carried forward: at most one
      goroutine is live, none is live while another is still to be spawned, and two Starts are
      never both pending; a live goroutine uses the channel pair it was started with, which is
      the current one; and no channel was closed twice. */
  lemma AtMostOneGoroutine(threads: nat, acts: seq<Action>)
    requires Runs(Initial(threads), acts)
    ensures var s := Exec(Initial(threads), acts);
      && !s.panicked
      && (forall g, h :: 0 <= g < |s.loops| && 0 <= h < |s.loops| && !s.loops[g].pc.Exited? && !s.loops[h].pc.Exited?
            ==> g == h)
      && (forall t, u :: 0 <= t < |s.callers| && 0 <= u < |s.callers| ==>
            s.callers[t].Pending() && s.callers[u].Pending() ==> t == u)
      && (forall t, g :: 0 <= t < |s.callers| && 0 <= g < |s.loops| && s.callers[t].Pending() ==> s.loops[g].pc.Exited?)
      && (forall g :: 0 <= g < |s.loops| && !s.loops[g].pc.Exited? ==>
            && s.loops[g].born == s.chans
            && (s.loops[g].pc.Selecting? ==> s.loops[g].pc.stop == s.loops[g].born.stop)
            && (s.loops[g].deferred.Some? ==> s.loops[g].deferred.value == s.loops[g].born.done))
  {
    InitialInv(threads);
    RunKeepsInv(Initial(threads), acts);
  }

  /** The action that accepts a Start: the flag goes up. */
  predicate Accepts(s: State, a: Action) {
    a.Advance? && a.t < |s.callers| && s.callers[a.t].StartChecking? && !s.continuous
  }

  /** The action with which a goroutine enters its callback. */
  predicate CallsBack(s: State, a: Action) {
    a.CallBack? && a.g < |s.loops| && s.loops[a.g].pc.Collecting?
  }

  /** The action with which Stop unlocks and returns nil. */
  predicate StopReturns(s: State, a: Action) {
    a.Advance? && a.t < |s.callers| && s.callers[a.t].StopReleasing?
  }

  lemma {:induction false} RunsPrefix(s: State, acts: seq<Action>, k: nat)
    requires Runs(s, acts) && k <= |acts|
    ensures Runs(s, acts[..k]) && Runs(Exec(s, acts[..k]), acts[k..])
    ensures k < |acts| ==> Enabled(Exec(s, acts[..k]), acts[k])
    ensures Exec(Exec(s, acts[..k]), acts[k..]) == Exec(s, acts)
    decreases k
  {
    if k > 0 {
      RunsPrefix(Step(s, acts[0]), acts[1..], k - 1);
      assert acts[..k][1..] == acts[1..][..k - 1];
      assert acts[1..][k - 1..] == acts[k..];
    } else {
      assert acts[..0] == [] && acts[0..] == acts;
    }
  }

  lemma {:induction false} ExecNext(s: State, acts: seq<Action>, k: nat)
    requires Runs(s, acts) && k < |acts|
    ensures Runs(s, acts[..k]) && Runs(s, acts[..k + 1])
    ensures Enabled(Exec(s, acts[..k]), acts[k])
    ensures Exec(s, acts[..k + 1]) == Step(Exec(s, acts[..k]), acts[k])
    decreases k
  {
    if k > 0 {
      ExecNext(Step(s, acts[0]), acts[1..], k - 1);
      assert acts[..k][1..] == acts[1..][..k - 1];
      assert acts[..k + 1][1..] == acts[1..][..k];
    } else {
      assert acts[..1] == [acts[0]] && acts[..0] == [];
      assert [acts[0]][1..] == [];
    }
  }

  /** The state before the k-th action of a run. */
  ghost function Before(s: State, acts: seq<Action>, k: nat): State
    requires Runs(s, acts) && k <= |acts|
  {
    RunsPrefix(s, acts, k);
    Exec(s, acts[..k])
  }

  lemma QuietStep(s: State, a: Action)
    requires Inv(s) && Enabled(s, a) && s.owner.Nobody? && !s.continuous && !Accepts(s, a)
    ensures Step(s, a).owner.Nobody? && !Step(s, a).continuous
    ensures !CallsBack(s, a)
  {
  }

  /** From the return of a Stop with nil until another Start is accepted every goroutine ever started
      has exited: no collection and no callback is under way. */
  lemma {:induction false} NoGoroutineAfterStop(threads: nat, acts: seq<Action>, i: nat, j: nat)
    requires Runs(Initial(threads), acts) && i < j <= |acts|
    requires StopReturns(Before(Initial(threads), acts, i), acts[i])
    requires forall k :: i < k < j ==> !Accepts(Before(Initial(threads), acts, k), acts[k])
    ensures var s := Before(Initial(threads), acts, j); forall g :: 0 <= g < |s.loops| ==> s.loops[g].pc.Exited?
  {
    QuietUntil(threads, acts, i, j);
    hide Before, Runs;
  }

  /** Once a Stop has returned nil, no callback begins until another Start has been accepted. */
  lemma {:induction false} NoCallbackAfterStop(threads: nat, acts: seq<Action>, i: nat, j: nat)
    requires Runs(Initial(threads), acts) && i < j < |acts|
    requires StopReturns(Before(Initial(threads), acts, i), acts[i])
    requires CallsBack(Before(Initial(threads), acts, j), acts[j])
    ensures exists k :: i < k < j && Accepts(Before(Initial(threads), acts, k), acts[k])
  {
    if forall k :: i < k < j ==> !Accepts(Before(Initial(threads), acts, k), acts[k]) {
      QuietUntil(threads, acts, i, j);
      QuietStep(Before(Initial(threads), acts, j), acts[j]);
    }
  }

  lemma {:induction false} BeforeInv(threads: nat, acts: seq<Action>, k: nat)
    requires Runs(Initial(threads), acts) && k <= |acts|
    ensures Inv(Before(Initial(threads), acts, k))
    ensures k < |acts| ==> Enabled(Before(Initial(threads), acts, k), acts[k])
    ensures k < |acts| ==>
              Before(Initial(threads), acts, k + 1) == Step(Before(Initial(threads), acts, k), acts[k])
  {
    InitialInv(threads);
    RunsPrefix(Initial(threads), acts, k);
    RunKeepsInv(Initial(threads), acts[..k]);
    if k < |acts| {
      ExecNext(Initial(threads), acts, k);
    }
  }

  lemma {:induction false} QuietUntil(threads: nat, acts: seq<Action>, i: nat, j: nat)
    requires Runs(Initial(threads), acts) && i < j <= |acts|
    requires StopReturns(Before(Initial(threads), acts, i), acts[i])
    requires forall k :: i < k < j ==> !Accepts(Before(Initial(threads), acts, k), acts[k])
    ensures Inv(Before(Initial(threads), acts, j))
    ensures j < |acts| ==> Enabled(Before(Initial(threads), acts, j), acts[j])
    ensures Before(Initial(threads), acts, j).owner.Nobody? && !Before(Initial(threads), acts, j).continuous
    decreases j
  {
    BeforeInv(threads, acts, j);
    BeforeInv(threads, acts, j - 1);
    var s := Before(Initial(threads), acts, j - 1);
    if j > i + 1 {
      QuietUntil(threads, acts, i, j - 1);
    } else {
      assert StopInv(s, s.callers[acts[i].t]);
    }
    QuietStep(s, acts[j - 1]);
  }

  // ---- How a goroutine ends, and how it goes on ----

  predicate Ended(s: State, g: nat) {
    g < |s.loops| && (s.loops[g].pc.Exiting? || s.loops[g].pc.Exited?)
  }

  /** No step of a caller changes a goroutine that exists. */
  lemma CallerStepKeepsLoops(s: State, t: nat)
    requires t < |s.callers| && CallerCanMove(s, s.callers[t])
    ensures s.loops <= CallerStep(s, t).loops && s.closed <= CallerStep(s, t).closed
    ensures CallerStep(s, t).cancelled == s.cancelled
  {
  }

  /** A step of a goroutine changes at most its own place and what its deferred close knows. */
  lemma LoopStepOwn(s: State, h: nat)
    requires h < |s.loops|
    ensures var n := LoopStep(s, h);
      && |n.loops| == |s.loops| && n.loops == s.loops[h := n.loops[h]]
      && n.loops[h] == s.loops[h].(pc := n.loops[h].pc, deferred := n.loops[h].deferred)
      && (Ended(s, h) ==> Ended(n, h))
  {
  }

  lemma LoopStepShared(s: State, h: nat)
    requires h < |s.loops|
    ensures var n := LoopStep(s, h); n.callers == s.callers && n.cancelled == s.cancelled && s.closed <= n.closed
  {
  }

  lemma LoopStepFrame(s: State, h: nat, g: nat)
    requires h < |s.loops| && g < |s.loops|
    ensures var n := LoopStep(s, h);
      && |n.loops| == |s.loops| && n.callers == s.callers && n.cancelled == s.cancelled && s.closed <= n.closed
      && n.loops[g].ctx == s.loops[g].ctx && n.loops[g].born == s.loops[g].born
      && n.loops[g].callback == s.loops[g].callback
      && (Ended(s, g) ==> Ended(n, g))
  {
    LoopStepOwn(s, h);
    LoopStepShared(s, h);
    hide LoopStep;
  }

  lemma EndedStep(s: State, a: Action, g: nat)
    requires Enabled(s, a) && g < |s.loops|
    ensures g < |Step(s, a).loops| && (Ended(s, g) ==> Ended(Step(s, a), g))
    ensures Step(s, a).loops[g].ctx == s.loops[g].ctx && Step(s, a).loops[g].born == s.loops[g].born
    ensures Step(s, a).loops[g].callback == s.loops[g].callback
    ensures s.closed <= Step(s, a).closed && s.cancelled <= Step(s, a).cancelled
  {
    if a.Advance? {
      CallerStepKeepsLoops(s, a.t);
    } else if a.LoopAdvance? {
      LoopStepFrame(s, a.g, g);
    }
    hide CallerStep, LoopStep;
  }

  lemma {:induction false} EndedStays(s: State, acts: seq<Action>, g: nat)
    requires Runs(s, acts) && Ended(s, g)
    ensures Ended(Exec(s, acts), g)
    decreases |acts|
  {
    hide Step, Ended;
    if acts != [] {
      assert g < |s.loops| by { EndedExists(s, g); }
      EndedStep(s, acts[0], g);
      EndedStays(Step(s, acts[0]), acts[1..], g);
    }
  }

  lemma EndedExists(s: State, g: nat)
    requires Ended(s, g)
    ensures g < |s.loops|
  {
  }

  /** Once a goroutine has seen the cancellation of its context, or its stop channel, it never again
      stands at its select, takes a tick, collects or calls back, under any continuation. */
  lemma {:induction false} SeenIsFinal(s: State, a: Action, more: seq<Action>, g: nat)
    requires (a == SeeCancel(g) || a == SeeStop(g)) && Runs(s, [a] + more)
    ensures var n := Exec(s, [a] + more);
      && g < |n.loops|
      && var pc := n.loops[g].pc;
         !(pc.Spawned? || pc.AtSelect? || pc.Selecting? || pc.WantsLock? || pc.Collecting? || pc.CallingBack?)
  {
    assert ([a] + more)[1..] == more;
    EndedStays(Step(s, a), more, g);
  }

  /** A goroutine at its select whose context is cancelled can end, closing its own done channel. */
  lemma CancelledCanEnd(threads: nat, acts: seq<Action>, g: nat)
    requires Runs(Initial(threads), acts)
    requires var s := Exec(Initial(threads), acts);
      g < |s.loops| && s.loops[g].pc.Selecting? && s.loops[g].ctx in s.cancelled
    ensures exists more :: var s := Exec(Initial(threads), acts);
      Runs(s, more) && var n := Exec(s, more);
      g < |n.loops| && n.loops[g].pc.Exited? && n.loops[g].born.done in n.closed
  {
    var s := Exec(Initial(threads), acts);
    InitialInv(threads);
    RunKeepsInv(Initial(threads), acts);
    assert s.owner == Runner(g) && LoopInv(s, s.loops[g]);
    var mid := Step(s, SeeCancel(g));
    var n := Step(mid, LoopAdvance(g));
    StepKeepsInv(s, SeeCancel(g));
    assert n.loops[g].pc.Exited? && n.loops[g].born.done in n.closed;
    assert Runs(n, []) && Exec(n, []) == n;
    RunsCons(mid, LoopAdvance(g), []);
    assert [LoopAdvance(g)] + [] == [LoopAdvance(g)];
    RunsCons(s, SeeCancel(g), [LoopAdvance(g)]);
    assert Exec(s, [SeeCancel(g)] + [LoopAdvance(g)]) == n;
  }

  /** A cancelled context stays cancelled. */
  lemma {:induction false} CancelIsFinal(s: State, ctx: nat, more: seq<Action>)
    requires Runs(s, [Cancel(ctx)] + more)
    ensures ctx in Exec(s, [Cancel(ctx)] + more).cancelled
  {
    assert ([Cancel(ctx)] + more)[1..] == more;
    CancelledGrows(Step(s, Cancel(ctx)), more);
  }

  lemma {:induction false} CancelledGrows(s: State, acts: seq<Action>)
    requires Runs(s, acts)
    ensures s.cancelled <= Exec(s, acts).cancelled
    decreases |acts|
  {
    if acts != [] {
      StepCancelled(s, acts[0]);
      hide Step;
      CancelledGrows(Step(s, acts[0]), acts[1..]);
    }
  }

  lemma StepCancelled(s: State, a: Action)
    requires Enabled(s, a)
    ensures s.cancelled <= Step(s, a).cancelled
  {
  }

  /** A goroutine only ends when it was told to: its context is cancelled or the stop channel it was
      started with is closed. */
  ghost predicate OnlyWhenTold(s: State) {
    forall g :: 0 <= g < |s.loops| && Ended(s, g) ==>
      s.loops[g].ctx in s.cancelled || s.loops[g].born.stop in s.closed
  }

  lemma OnlyWhenToldStep(s: State, a: Action)
    requires Inv(s) && Enabled(s, a) && OnlyWhenTold(s)
    ensures OnlyWhenTold(Step(s, a))
  {
    var n := Step(s, a);
    forall g | 0 <= g < |n.loops| && Ended(n, g)
      ensures n.loops[g].ctx in n.cancelled || n.loops[g].born.stop in n.closed
    {
      assert g < |s.loops|;
      EndedStep(s, a, g);
      if !Ended(s, g) {
        assert s.owner == Runner(g) && LoopInv(s, s.loops[g]);
        assert a == SeeStop(g) || a == SeeCancel(g);
      }
    }
  }

  lemma {:induction false} EndsOnlyWhenTold(s: State, acts: seq<Action>)
    requires Inv(s) && Runs(s, acts) && OnlyWhenTold(s)
    ensures OnlyWhenTold(Exec(s, acts))
    decreases |acts|
  {
    hide Inv, Step, OnlyWhenTold;
    if acts != [] {
      StepKeepsInv(s, acts[0]);
      OnlyWhenToldStep(s, acts[0]);
      EndsOnlyWhenTold(Step(s, acts[0]), acts[1..]);
    }
  }

  /** In every reachable state, a goroutine that is ending or has ended was told to. */
  lemma {:induction false} GoroutineEndsOnlyWhenTold(threads: nat, acts: seq<Action>, g: nat)
    requires Runs(Initial(threads), acts) && Ended(Exec(Initial(threads), acts), g)
    ensures var s := Exec(Initial(threads), acts);
      s.loops[g].ctx in s.cancelled || s.loops[g].born.stop in s.closed
  {
    InitialInv(threads);
    EndsOnlyWhenTold(Initial(threads), acts);
  }

  /** After a collection a goroutine without a callback is back before its select with the mutex free;
      one with a callback enters it with the mutex free, and comes back when the callback returns. A
      callback leaves every calling thread as it was. */
  lemma CollectionComesBack(s: State, g: nat, a: Action)
    requires Inv(s) && Enabled(s, a) && g < |s.loops|
    requires a == LoopAdvance(g) || (a.CallBack? && a.g == g)
    ensures var n, pc := Step(s, a), s.loops[g].pc;
      && (pc.Collecting? && !s.loops[g].callback ==> n.loops[g].pc.AtSelect? && n.lock.Free?)
      && (pc.Collecting? && s.loops[g].callback ==> n.loops[g].pc.CallingBack? && n.lock.Free?)
      && (pc.CallingBack? ==> n.loops[g].pc.AtSelect? && n.lock == s.lock)
      && (pc.WantsLock? ==> n.loops[g].pc.Collecting?)
      && n.callers == s.callers
  {
  }

  /** A Cleanup goes on to stop the collection exactly when it finds the flag up; otherwise it returns
      without waiting for anything, even while another thread holds the mutex. */
  lemma CleanupStopsIffRunning(s: State, t: nat)
    requires !s.panicked && t < |s.callers| && s.callers[t].CleanupReading?
    ensures Enabled(s, Advance(t))
    ensures Step(s, Advance(t)).callers[t].StopLocking? <==> s.continuous
    ensures Step(s, Advance(t)).callers[t].Idle? <==> !s.continuous
    ensures Step(s, Advance(t)).lock == s.lock
  {
  }

  // ---- What a Start starts ----

  /** Some Start of the run asked for this context and callback. */
  ghost predicate Asked(acts: seq<Action>, ctx: nat, callback: bool) {
    exists i :: 0 <= i < |acts| && AsksFor(acts[i], ctx, callback)
  }

  predicate AsksFor(a: Action, ctx: nat, callback: bool) {
    a.CallStart? && a.ctx == ctx && a.callback == callback
  }

  predicate StartingWith(c: Caller, ctx: nat, callback: bool) {
    match c
    case StartLocking(x, b) => x == ctx && b == callback
    case StartChecking(x, b) => x == ctx && b == callback
    case StartUnlocking(x, b, _) => x == ctx && b == callback
    case StartSpawning(x, b, _) => x == ctx && b == callback
    case _ => false
  }

  ghost predicate AllAsked(s: State, acts: seq<Action>) {
    && (forall t, ctx, callback :: 0 <= t < |s.callers| && StartingWith(s.callers[t], ctx, callback) ==>
          Asked(acts, ctx, callback))
    && (forall g :: 0 <= g < |s.loops| ==> Asked(acts, s.loops[g].ctx, s.loops[g].callback))
  }

  lemma AskedSnoc(acts: seq<Action>, a: Action, ctx: nat, callback: bool)
    requires Asked(acts, ctx, callback) || AsksFor(a, ctx, callback)
    ensures Asked(acts + [a], ctx, callback)
  {
    if Asked(acts, ctx, callback) {
      var i :| 0 <= i < |acts| && AsksFor(acts[i], ctx, callback);
      assert AsksFor((acts + [a])[i], ctx, callback);
    } else {
      assert AsksFor((acts + [a])[|acts|], ctx, callback);
    }
  }

  lemma StartingStep(s: State, a: Action, t: nat, ctx: nat, callback: bool)
    requires Enabled(s, a) && t < |Step(s, a).callers| && StartingWith(Step(s, a).callers[t], ctx, callback)
    ensures AsksFor(a, ctx, callback) || (t < |s.callers| && StartingWith(s.callers[t], ctx, callback))
  {
    if a.Advance? {
      StartingCallerStep(s, a.t, t, ctx, callback);
    } else if a.LoopAdvance? {
      LoopStepFrame(s, a.g, a.g);
    }
    hide CallerStep, LoopStep;
  }

  lemma StartingCallerStep(s: State, u: nat, t: nat, ctx: nat, callback: bool)
    requires u < |s.callers| && CallerCanMove(s, s.callers[u])
    ensures |CallerStep(s, u).callers| == |s.callers|
    ensures t < |s.callers| && StartingWith(CallerStep(s, u).callers[t], ctx, callback) ==>
              StartingWith(s.callers[t], ctx, callback)
  {
  }

  lemma SpawnStep(s: State, a: Action, g: nat)
    requires Enabled(s, a) && g < |Step(s, a).loops|
    ensures var l := Step(s, a).loops[g];
      || (g < |s.loops| && s.loops[g].ctx == l.ctx && s.loops[g].callback == l.callback)
      || (a.Advance? && a.t < |s.callers| && StartingWith(s.callers[a.t], l.ctx, l.callback))
  {
  }

  lemma AllAskedStep(s: State, acts: seq<Action>, a: Action)
    requires Enabled(s, a) && AllAsked(s, acts)
    ensures AllAsked(Step(s, a), acts + [a])
  {
    hide Step, StartingWith, AsksFor, Asked, Enabled;
    var n := Step(s, a);
    forall t, ctx, callback | 0 <= t < |n.callers| && StartingWith(n.callers[t], ctx, callback)
      ensures Asked(acts + [a], ctx, callback)
    {
      StartingStep(s, a, t, ctx, callback);
      AskedSnoc(acts, a, ctx, callback);
    }
    forall g | 0 <= g < |n.loops| ensures Asked(acts + [a], n.loops[g].ctx, n.loops[g].callback) {
      SpawnStep(s, a, g);
      AskedSnoc(acts, a, n.loops[g].ctx, n.loops[g].callback);
    }
  }

  lemma {:induction false} AllAskedAfter(s: State, before: seq<Action>, acts: seq<Action>)
    requires Runs(s, acts) && AllAsked(s, before)
    ensures AllAsked(Exec(s, acts), before + acts)
    decreases |acts|
  {
    hide AllAsked, Step, Enabled;
    if acts == [] {
      assert before + acts == before;
    } else {
      AllAskedStep(s, before, acts[0]);
      AllAskedAfter(Step(s, acts[0]), before + [acts[0]], acts[1..]);
      assert before + [acts[0]] + acts[1..] == before + acts;
    }
  }

  /** Every goroutine runs under the context and with the callback that some Start asked for. */
  lemma {:induction false} GoroutineWasAskedFor(threads: nat, acts: seq<Action>, g: nat)
    requires Runs(Initial(threads), acts) && g < |Exec(Initial(threads), acts).loops|
    ensures var l := Exec(Initial(threads), acts).loops[g];
      exists i :: 0 <= i < |acts| && acts[i].CallStart? && acts[i].ctx == l.ctx && acts[i].callback == l.callback
  {
    AllAskedAfter(Initial(threads), [], acts);
    assert [] + acts == acts;
    var l := Exec(Initial(threads), acts).loops[g];
    assert Asked(acts, l.ctx, l.callback);
    var i :| 0 <= i < |acts| && AsksFor(acts[i], l.ctx, l.callback);
  }

  /** How many Starts a run accepts. */
  ghost function Accepted(s: State, acts: seq<Action>): nat
    requires Runs(s, acts)
    decreases |acts|
  {
    if acts == [] then 0 else (if Accepts(s, acts[0]) then 1 else 0) + Accepted(Step(s, acts[0]), acts[1..])
  }

  function StartedAlready(s: State): nat {
    |s.loops| + if s.owner.Starter? then 1 else 0
  }

  lemma StartsStep(s: State, a: Action)
    requires Inv(s) && Enabled(s, a)
    ensures StartedAlready(Step(s, a)) == StartedAlready(s) + if Accepts(s, a) then 1 else 0
  {
  }

  /** Every accepted Start starts exactly one goroutine, now or as its caller's next steps. */
  lemma {:induction false} OneGoroutineEach(s: State, acts: seq<Action>)
    requires Inv(s) && Runs(s, acts)
    ensures StartedAlready(Exec(s, acts)) == StartedAlready(s) + Accepted(s, acts)
    decreases |acts|
  {
    hide Inv, Step, StartedAlready, Accepts;
    if acts != [] {
      StepKeepsInv(s, acts[0]);
      StartsStep(s, acts[0]);
      OneGoroutineEach(Step(s, acts[0]), acts[1..]);
    }
  }

  /** The flag is up, or a Stop that has just lowered it still holds the mutex. */
  predicate FlagHeld(s: State) {
    || s.continuous
    || (s.lock.ByCaller? && s.lock.t < |s.callers| && var c := s.callers[s.lock.t];
        c.StopRenewingStop? || c.StopRenewingDone? || c.StopReleasing?)
  }

  /** How many Stops of a run return nil. */
  ghost function Stopped(s: State, acts: seq<Action>): nat
    requires Runs(s, acts)
    decreases |acts|
  {
    if acts == [] then 0 else (if StopReturns(s, acts[0]) then 1 else 0) + Stopped(Step(s, acts[0]), acts[1..])
  }

  function Flag(s: State): nat {
    if FlagHeld(s) then 1 else 0
  }

  lemma FlagStep(s: State, a: Action)
    requires Inv(s) && Enabled(s, a)
    ensures Flag(s) + (if Accepts(s, a) then 1 else 0) == Flag(Step(s, a)) + if StopReturns(s, a) then 1 else 0
  {
  }

  lemma {:induction false} FlagBalance(s: State, acts: seq<Action>)
    requires Inv(s) && Runs(s, acts)
    ensures Flag(s) + Accepted(s, acts) == Flag(Exec(s, acts)) + Stopped(s, acts)
    decreases |acts|
  {
    hide Inv, Step, Flag, Accepts, StopReturns;
    if acts != [] {
      StepKeepsInv(s, acts[0]);
      FlagStep(s, acts[0]);
      FlagBalance(Step(s, acts[0]), acts[1..]);
    }
  }

  /** Accepted Starts and Stops that return nil take turns: in every run there are as many of the one
      as of the other, or one Start more. In particular the end of a goroutine by cancellation does not
      make room for another Start, and no Stop returns nil without a Start of its own. */
  lemma {:induction false} StartsAndStopsAlternate(threads: nat, acts: seq<Action>)
    requires Runs(Initial(threads), acts)
    ensures Stopped(Initial(threads), acts) <= Accepted(Initial(threads), acts) <= Stopped(Initial(threads), acts) + 1
  {
    InitialInv(threads);
    FlagBalance(Initial(threads), acts);
    assert !FlagHeld(Initial(threads));
  }

  // ---- When Stop can return ----

  /** The goroutine waits for the mutex, or its callback is in the middle of a call to the collector:
      reading the flag, waiting for the mutex, or waiting as a Stop of its own. */
  predicate Blocked(s: State, l: Loop) {
    l.pc.WantsLock? || (l.pc.CallingBack? && l.pc.t < |s.callers| && !s.callers[l.pc.t].Idle?)
  }

  /** A Stop that waits for a goroutine which in turn waits for the Stop. */
  predicate Deadlocked(s: State, t: nat) {
    && t < |s.callers| && s.callers[t].StopWaiting?
    && exists g :: 0 <= g < |s.loops| && Blocked(s, s.loops[g])
  }

  lemma BlockedIsOwner(s: State, t: nat, g: nat)
    requires Inv(s) && t < |s.callers| && s.callers[t].StopWaiting? && g < |s.loops| && Blocked(s, s.loops[g])
    ensures s.owner == Runner(g) && s.lock == ByCaller(t) && s.continuous && s.callers[t].on !in s.closed
    ensures forall u :: 0 <= u < |s.callers| && u != t ==> !s.callers[u].HoldsLock() && !s.callers[u].Pending()
  {
    assert !s.loops[g].pc.Exited? && s.callers[t].HoldsLock();
    assert StopInv(s, s.callers[t]);
  }

  lemma DeadlockStays(s: State, a: Action, t: nat)
    requires Inv(s) && Enabled(s, a) && Deadlocked(s, t)
    ensures Deadlocked(Step(s, a), t)
  {
    var g :| 0 <= g < |s.loops| && Blocked(s, s.loops[g]);
    BlockedIsOwner(s, t, g);
    hide Inv;
    var n := Step(s, a);
    assert g < |n.loops| && Blocked(n, n.loops[g]);
  }

  lemma {:induction false} DeadlockIsForever(s: State, acts: seq<Action>, t: nat)
    requires Inv(s) && Runs(s, acts) && Deadlocked(s, t)
    ensures Deadlocked(Exec(s, acts), t)
    decreases |acts|
  {
    if acts != [] {
      StepKeepsInv(s, acts[0]);
      DeadlockStays(s, acts[0], t);
      DeadlockIsForever(Step(s, acts[0]), acts[1..], t);
    }
  }

  lemma RunsCons(s: State, a: Action, rest: seq<Action>)
    requires Enabled(s, a) && Runs(Step(s, a), rest)
    ensures Runs(s, [a] + rest) && Exec(s, [a] + rest) == Exec(Step(s, a), rest)
  {
    assert ([a] + rest)[1..] == rest;
  }

  predicate Finishing(s: State, c: Caller) {
    || (c.StopWaiting? && c.on in s.closed)
    || c.StopClearing? || c.StopRenewingStop? || c.StopRenewingDone? || c.StopReleasing?
  }

  function Remaining(c: Caller): nat {
    match c
    case StopWaiting(_) => 4
    case StopClearing => 3
    case StopRenewingStop => 2
    case StopRenewingDone => 1
    case _ => 0
  }

  /** Once the done channel is closed the waiting Stop can run to its end on its own. */
  lemma {:induction false} FinishAlone(s: State, t: nat) returns (acts: seq<Action>)
    requires !s.panicked && t < |s.callers| && Finishing(s, s.callers[t])
    ensures Runs(s, acts) && t < |Exec(s, acts).callers| && Exec(s, acts).callers[t].Idle?
    decreases Remaining(s.callers[t])
  {
    var n := Step(s, Advance(t));
    if s.callers[t].StopReleasing? {
      acts := [];
    } else {
      acts := FinishAlone(n, t);
    }
    RunsCons(s, Advance(t), acts);
    acts := [Advance(t)] + acts;
  }

  function Distance(s: State): nat {
    match s.owner
    case Nobody => 0
    case Starter(_) => 5
    case Runner(g) =>
      if g < |s.loops| then
        match s.loops[g].pc
        case Exiting => 1
        case Selecting(_) => 2
        case AtSelect => 3
        case _ => 4
      else 0
  }

  /** The next action that brings the waiting Stop closer to its return. */
  function NextToFinish(s: State): Action {
    match s.owner
    case Nobody => Cancel(0)
    case Starter(u) => Advance(u)
    case Runner(g) => if g < |s.loops| && s.loops[g].pc.Selecting? then SeeStop(g) else LoopAdvance(g)
  }

  lemma FinishStep(s: State, t: nat)
    requires Inv(s) && t < |s.callers| && s.callers[t].StopWaiting? && !Deadlocked(s, t) && !s.owner.Nobody?
    ensures var a := NextToFinish(s);
      && Enabled(s, a)
      && t < |Step(s, a).callers| && Step(s, a).callers[t].StopWaiting?
      && !Deadlocked(Step(s, a), t)
      && Distance(Step(s, a)) < Distance(s)
  {
    assert StopInv(s, s.callers[t]) && s.callers[t].HoldsLock();
    assert s.lock == ByCaller(t);
    if s.owner.Starter? {
      assert s.callers[s.owner.t].Pending();
    } else {
      assert !s.loops[s.owner.g].pc.Exited? && !Blocked(s, s.loops[s.owner.g]);
    }
  }

  lemma {:induction false} StopCanFinish(s: State, t: nat) returns (acts: seq<Action>)
    requires Inv(s) && t < |s.callers| && s.callers[t].StopWaiting? && !Deadlocked(s, t)
    ensures Runs(s, acts) && t < |Exec(s, acts).callers| && Exec(s, acts).callers[t].Idle?
    decreases Distance(s)
  {
    hide LockInv, OwnerInv, ChanInv, Deadlocked;
    assert StopInv(s, s.callers[t]);
    if s.owner.Nobody? {
      NobodyMeansDone(s, t);
      acts := FinishAlone(s, t);
    } else {
      var a := NextToFinish(s);
      FinishStep(s, t);
      StepKeepsInv(s, a);
      acts := StopCanFinish(Step(s, a), t);
      RunsCons(s, a, acts);
      acts := [a] + acts;
    }
  }

  lemma NobodyMeansDone(s: State, t: nat)
    requires Inv(s) && t < |s.callers| && s.callers[t].StopWaiting? && s.owner.Nobody?
    ensures s.callers[t].on in s.closed
  {
    assert StopInv(s, s.callers[t]);
  }

  /** In every reachable state where a Stop is waiting: some continuation lets it return if and only
      if the goroutine is not already waiting for the mutex that the Stop holds, nor its callback in
      the middle of a call to the collector. */
  lemma StopCanReturnIff(threads: nat, acts: seq<Action>, t: nat)
    requires Runs(Initial(threads), acts)
    requires var s := Exec(Initial(threads), acts); t < |s.callers| && s.callers[t].StopWaiting?
    ensures var s := Exec(Initial(threads), acts);
      (exists more :: Runs(s, more) && t < |Exec(s, more).callers| && Exec(s, more).callers[t].Idle?)
      <==> !Deadlocked(s, t)
  {
    var s := Exec(Initial(threads), acts);
    InitialInv(threads);
    RunKeepsInv(Initial(threads), acts);
    if Deadlocked(s, t) {
      forall more | Runs(s, more) ensures Deadlocked(Exec(s, more), t) {
        DeadlockIsForever(s, more, t);
      }
    } else {
      var more := StopCanFinish(s, t);
    }
  }

  // ---- When a waiting Stop must not fear a deadlock ----

  /** The goroutine has left its loop: nothing but its deferred close is to come. */
  predicate Leaving(s: State) {
    || s.owner.Nobody?
    || (s.owner.Runner? && s.owner.g < |s.loops| && s.loops[s.owner.g].pc.Exiting?)
  }

  predicate Waits(s: State, t: nat) {
    t < |s.callers| && s.callers[t].StopWaiting?
  }

  lemma LeavingIsNotDeadlocked(s: State, t: nat)
    requires Inv(s) && Leaving(s)
    ensures !Deadlocked(s, t)
  {
    forall g | 0 <= g < |s.loops| ensures !Blocked(s, s.loops[g]) {
      assert !s.loops[g].pc.Exited? ==> s.owner == Runner(g);
    }
  }

  lemma LeavingStep(s: State, a: Action, t: nat)
    requires Inv(s) && Enabled(s, a) && Waits(s, t) && Leaving(s) && a != Advance(t)
    ensures Waits(Step(s, a), t) && Leaving(Step(s, a))
  {
    assert s.callers[t].HoldsLock() && StopInv(s, s.callers[t]);
    assert s.lock == ByCaller(t);
    assert forall u :: 0 <= u < |s.callers| && u != t ==> !s.callers[u].HoldsLock();
    assert forall u :: 0 <= u < |s.callers| ==> !s.callers[u].Pending();
    assert forall g :: 0 <= g < |s.loops| && s.owner != Runner(g) ==> s.loops[g].pc.Exited?;
    hide Inv;
  }

  lemma {:induction false} LeavingStays(s: State, acts: seq<Action>, t: nat)
    requires Inv(s) && Runs(s, acts) && Waits(s, t) && Leaving(s)
    requires forall i :: 0 <= i < |acts| ==> acts[i] != Advance(t)
    ensures Inv(Exec(s, acts)) && Waits(Exec(s, acts), t) && Leaving(Exec(s, acts))
    decreases |acts|
  {
    hide Inv, Waits, Leaving, Step;
    if acts != [] {
      StepKeepsInv(s, acts[0]);
      LeavingStep(s, acts[0], t);
      LeavingStays(Step(s, acts[0]), acts[1..], t);
    }
  }

  lemma TickBlocks(s: State, t: nat)
    requires Inv(s) && Waits(s, t) && s.owner.Runner? && s.loops[s.owner.g].pc.Selecting?
    ensures Enabled(s, Tick(s.owner.g)) && Deadlocked(Step(s, Tick(s.owner.g)), t)
  {
    var g := s.owner.g;
    assert Blocked(Step(s, Tick(g)), Step(s, Tick(g)).loops[g]);
  }

  /** Short of the select, the next step towards it does not leave the loop. */
  lemma NotLeavingYet(s: State, t: nat)
    requires Inv(s) && Waits(s, t) && !Leaving(s) && !Deadlocked(s, t)
    requires !(s.owner.Runner? && s.loops[s.owner.g].pc.Selecting?)
    ensures !Leaving(Step(s, NextToFinish(s))) && NextToFinish(s) != Advance(t)
  {
    FinishStep(s, t);
  }

  lemma {:induction false} DeadlockCanCome(s: State, t: nat) returns (acts: seq<Action>)
    requires Inv(s) && Waits(s, t) && !Leaving(s)
    ensures Runs(s, acts) && Deadlocked(Exec(s, acts), t)
    ensures forall i :: 0 <= i < |acts| ==> acts[i] != Advance(t)
    decreases Distance(s)
  {
    hide LockInv, OwnerInv, ChanInv, Deadlocked;
    if Deadlocked(s, t) {
      acts := [];
    } else if s.owner.Runner? && s.owner.g < |s.loops| && s.loops[s.owner.g].pc.Selecting? {
      TickBlocks(s, t);
      RunsCons(s, Tick(s.owner.g), []);
      acts := [Tick(s.owner.g)] + [];
    } else {
      var a := NextToFinish(s);
      FinishStep(s, t);
      NotLeavingYet(s, t);
      StepKeepsInv(s, a);
      acts := DeadlockCanCome(Step(s, a), t);
      RunsCons(s, a, acts);
      acts := [a] + acts;
    }
  }

  /** In every reachable state where a Stop is waiting: no continuation deadlocks it while it waits if
      and only if the goroutine has already left its loop. At the select it may still take a tick
      although the stop channel is closed. */
  lemma StopIsSafeIff(threads: nat, acts: seq<Action>, t: nat)
    requires Runs(Initial(threads), acts) && Waits(Exec(Initial(threads), acts), t)
    ensures var s := Exec(Initial(threads), acts);
      (forall more :: Runs(s, more) && (forall i :: 0 <= i < |more| ==> more[i] != Advance(t)) ==>
         !Deadlocked(Exec(s, more), t))
      <==> Leaving(s)
  {
    var s := Exec(Initial(threads), acts);
    InitialInv(threads);
    RunKeepsInv(Initial(threads), acts);
    hide Inv, Waits, Leaving, Deadlocked;
    if Leaving(s) {
      forall more | Runs(s, more) && (forall i :: 0 <= i < |more| ==> more[i] != Advance(t))
        ensures !Deadlocked(Exec(s, more), t)
      {
        LeavingStays(s, more, t);
        LeavingIsNotDeadlocked(Exec(s, more), t);
      }
    } else {
      var more := DeadlockCanCome(s, t);
    }
  }

  // ---- Callbacks that stop the collection ----

  /** Where a callback stands that has called Stop, directly or through Cleanup. */
  predicate StoppingItself(s: State, l: Loop) {
    l.pc.CallingBack? && l.pc.t < |s.callers| &&
    var c := s.callers[l.pc.t];
    c.CleanupReading? || c.StopLocking? || c.StopChecking? || c.StopClosing? || c.StopReading? || c.StopWaiting?
  }

  lemma StoppingItselfStays(s: State, a: Action, g: nat)
    requires Inv(s) && Enabled(s, a) && g < |s.loops| && StoppingItself(s, s.loops[g])
    ensures g < |Step(s, a).loops| && Step(s, a).loops[g] == s.loops[g] && StoppingItself(Step(s, a), s.loops[g])
  {
    var u := s.loops[g].pc.t;
    assert s.owner == Runner(g) && s.continuous && s.chans.done !in s.closed by {
      assert !s.loops[g].pc.Exited?;
    }
    assert StopInv(s, s.callers[u]);
    hide Inv;
  }

  /** A callback that calls Stop, or Cleanup, never comes back: it would wait for its own goroutine. */
  lemma {:induction false} CallbackCannotStop(s: State, acts: seq<Action>, g: nat)
    requires Inv(s) && Runs(s, acts) && g < |s.loops| && StoppingItself(s, s.loops[g])
    ensures g < |Exec(s, acts).loops| && StoppingItself(Exec(s, acts), Exec(s, acts).loops[g])
    decreases |acts|
  {
    hide Inv, StoppingItself, Step;
    if acts != [] {
      StepKeepsInv(s, acts[0]);
      StoppingItselfStays(s, acts[0], g);
      CallbackCannotStop(Step(s, acts[0]), acts[1..], g);
    }
  }

  lemma {:induction false} RunsSnoc(s: State, acts: seq<Action>, a: Action)
    requires Runs(s, acts) && Enabled(Exec(s, acts), a)
    ensures Runs(s, acts + [a]) && Exec(s, acts + [a]) == Step(Exec(s, acts), a)
    decreases |acts|
  {
    if acts == [] {
      assert [] + [a] == [a] && [a][1..] == [];
    } else {
      RunsSnoc(Step(s, acts[0]), acts[1..], a);
      assert (acts + [a])[1..] == acts[1..] + [a];
    }
  }

  /** One Start with a tick taken just before its Stop closes the channel is enough. */
  lemma DeadlockIsReachable(threads: nat) returns (acts: seq<Action>)
    requires threads > 0
    ensures Runs(Initial(threads), acts) && Deadlocked(Exec(Initial(threads), acts), 0)
  {
    hide Runs, Exec;
    acts := StartedAndTicked(threads);
    var i := Initial(threads);
    acts := Then(i, acts, CallStop(0));
    acts := Then(i, acts, Advance(0));
    acts := Then(i, acts, Advance(0));
    acts := Then(i, acts, Advance(0));
    acts := Then(i, acts, Advance(0));
    assert Exec(i, acts).loops[0].pc.WantsLock?;
  }

  /** A callback that calls CollectAll while a Stop is waiting is enough as well. */
  lemma CallbackDeadlockIsReachable(threads: nat) returns (acts: seq<Action>)
    requires threads > 1
    ensures Runs(Initial(threads), acts) && Deadlocked(Exec(Initial(threads), acts), 0)
    ensures var s := Exec(Initial(threads), acts); |s.loops| == 1 && s.loops[0].pc == CallingBack(1)
  {
    hide Runs, Exec;
    acts := StartedAndTicked(threads);
    var i := Initial(threads);
    acts := Then(i, acts, LoopAdvance(0));
    acts := Then(i, acts, CallBack(0, 1));
    acts := Then(i, acts, CallCollect(1));
    acts := Then(i, acts, CallStop(0));
    acts := Then(i, acts, Advance(0));
    acts := Then(i, acts, Advance(0));
    acts := Then(i, acts, Advance(0));
    acts := Then(i, acts, Advance(0));
    assert Blocked(Exec(i, acts), Exec(i, acts).loops[0]);
  }

  lemma Then(s: State, acts: seq<Action>, a: Action) returns (more: seq<Action>)
    requires Runs(s, acts) && Enabled(Exec(s, acts), a)
    ensures Runs(s, more) && Exec(s, more) == Step(Exec(s, acts), a)
  {
    RunsSnoc(s, acts, a);
    more := acts + [a];
  }

  lemma StartedAndTicked(threads: nat) returns (acts: seq<Action>)
    requires threads > 0
    ensures Runs(Initial(threads), acts)
    ensures var s := Exec(Initial(threads), acts);
      && s.callers == Initial(threads).callers && s.lock.Free? && s.continuous && s.closed == {} && !s.panicked
      && |s.loops| == 1 && s.loops[0].pc.WantsLock? && s.loops[0].callback
  {
    var i := Initial(threads);
    acts := [];
    assert Runs(i, []) && Exec(i, []) == i;
    hide Runs, Exec;
    acts := Then(i, acts, CallStart(0, 0, true));
    acts := Then(i, acts, Advance(0));
    acts := Then(i, acts, Advance(0));
    acts := Then(i, acts, Advance(0));
    acts := Then(i, acts, Advance(0));
    acts := Then(i, acts, LoopAdvance(0));
    acts := Then(i, acts, LoopAdvance(0));
    acts := Then(i, acts, Tick(0));
  }
}
