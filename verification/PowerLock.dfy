/**
 The destroyable lock and the power actions that use it, step by step: a one-slot channel, a done
 channel that is closed once, and the mutex around most but not all uses of them.
 */
module PowerLock {
  import opened Common

  /** What a client is doing: a power action, or deleting the server. */
  datatype Task = Start | Stop | Restart | Kill | Delete

  datatype Phase =
    | Outside
    // Acquire
    | AcquireLock | AcquireCheck | AcquirePush | AcquireReturn(ok: bool)
    // TryAcquire
    | TryCheck | TrySelect | TryPushed | TryConfirm
    // the action itself
    | Acting | ActingUnlocked
    // Release
    | ReleaseLock | ReleaseDrain
    // Destroy
    | DestroyLock | DestroyCheck | DestroyClose
    // a critical section of the mutex about to be left
    | Leaving(next: Phase)

  datatype Client = Client(task: Task, phase: Phase)

  /** `slot` is whether the channel holds its one value; `done` whether the done channel is closed. */
  datatype State = State(mutex: Option<nat>, slot: bool, done: bool, clients: seq<Client>)

  datatype Step =
    | Request(i: nat, task: Task, wait: bool)
    | Go(i: nat)              // the next thing the client does, when there is only one
    | SelectPush(i: nat) | SelectDone(i: nat) | SelectTimeout(i: nat)

  /** Phases that run under the mutex. */
  predicate InMutex(p: Phase) {
    || p.AcquireCheck? || p.AcquirePush? || p.AcquireReturn? || p.TryConfirm?
    || p.ReleaseDrain? || p.DestroyCheck? || p.DestroyClose? || p.Leaving?
  }

  predicate WantsMutex(p: Phase) {
    p.AcquireLock? || p.TryPushed? || p.ReleaseLock? || p.DestroyLock?
  }

  /** An acquire has been decided in the client's favour and its release has not drained the slot. */
  predicate Holder(p: Phase) {
    || p.Acting? || p.ReleaseLock? || p.ReleaseDrain?
    || (p.AcquireReturn? && p.ok)
    || (p.Leaving? && p.next.Acting?)
  }

  /** The client's value is or was in the channel, but the acquire may still be undone. */
  predicate Pusher(p: Phase) {
    p.TryPushed? || p.TryConfirm?
  }

  predicate Enabled(s: State, step: Step) {
    && step.i < |s.clients|
    && var p := s.clients[step.i].phase;
       match step
       case Request(_, _, _) => p.Outside?
       case Go(i) => !p.Outside? && !p.TrySelect? && (WantsMutex(p) ==> s.mutex.None?)
       case SelectPush(_) => p.TrySelect? && !s.slot
       case SelectDone(_) => p.TrySelect? && s.done
       case SelectTimeout(_) => p.TrySelect?
  }

  function Move(s: State, i: nat, p: Phase): State
    requires i < |s.clients|
  {
    s.(clients := s.clients[i := s.clients[i].(phase := p)])
  }

  /** Entry of HandlePowerAction: how the lock is sought depends on the action. */
  function Entry(task: Task, wait: bool): Phase {
    match task
    case Delete => DestroyLock
    case Kill => AcquireLock
    case _ => if wait then TryCheck else AcquireLock
  }

  function Proceed(s: State, i: nat): State
    requires i < |s.clients|
  {
    var task := s.clients[i].task;
    match s.clients[i].phase
    case AcquireLock => Move(s, i, AcquireCheck).(mutex := Some(i))
    case AcquireCheck => Move(s, i, if s.done then Leaving(Outside) else AcquirePush)
    case AcquirePush =>
      if s.slot then Move(s, i, AcquireReturn(false)) else Move(s, i, AcquireReturn(true)).(slot := true)
    case AcquireReturn(ok) =>
      // A termination that finds the lock taken goes ahead without it.
      Move(s, i, Leaving(if ok then Acting else if task == Kill then ActingUnlocked else Outside))
    case TryCheck => Move(s, i, if s.done then Outside else TrySelect)
    case TryPushed => Move(s, i, TryConfirm).(mutex := Some(i))
    case TryConfirm => if s.done then Move(s, i, Leaving(Outside)).(slot := false) else Move(s, i, Leaving(Acting))
    case Acting => Move(s, i, ReleaseLock)
    case ActingUnlocked => Move(s, i, Outside)
    case ReleaseLock => Move(s, i, ReleaseDrain).(mutex := Some(i))
    case ReleaseDrain => Move(s, i, Leaving(Outside)).(slot := false)
    case DestroyLock => Move(s, i, DestroyCheck).(mutex := Some(i))
    case DestroyCheck => if s.done then Move(s, i, Leaving(Outside)) else Move(s, i, DestroyClose).(slot := false)
    case DestroyClose => Move(s, i, Leaving(Outside)).(done := true)
    case Leaving(next) => Move(s, i, next).(mutex := None)
    case _ => s
  }

  function Do(s: State, step: Step): State
    requires Enabled(s, step)
  {
    match step
    case Request(i, task, wait) => s.(clients := s.clients[i := Client(task, Entry(task, wait))])
    case Go(i) => Proceed(s, i)
    case SelectPush(i) => Move(s, i, TryPushed).(slot := true)
    case SelectDone(i) => Move(s, i, Outside)
    case SelectTimeout(i) => Move(s, i, Outside)
  }

  function Initial(n: nat): State {
    State(None, false, false, seq(n, _ => Client(Start, Outside)))
  }

  ghost predicate Run(n: nat, states: seq<State>, steps: seq<Step>) {
    && |states| == |steps| + 1
    && states[0] == Initial(n)
    && forall k :: 0 <= k < |steps| ==> Enabled(states[k], steps[k]) && states[k + 1] == Do(states[k], steps[k])
  }

  // ------------------------------------------------------------- the invariant

  predicate HolderAt(s: State, i: nat) {
    i < |s.clients| && Holder(s.clients[i].phase)
  }

  predicate PusherAt(s: State, i: nat) {
    i < |s.clients| && Pusher(s.clients[i].phase)
  }

  predicate ClaimAt(s: State, i: nat) {
    HolderAt(s, i) || PusherAt(s, i)
  }

  predicate ClosingAt(s: State, i: nat) {
    i < |s.clients| && s.clients[i].phase.DestroyClose?
  }

  /** Destroy has drained the channel: from here on nobody new is let in. */
  predicate Ended(s: State) {
    s.done || (s.mutex.Some? && ClosingAt(s, s.mutex.value))
  }

  /** The mutex is held by exactly the client that is in a critical section. */
  ghost predicate MutexAt(s: State, i: nat)
    requires i < |s.clients|
  {
    var p := s.clients[i].phase;
    && (InMutex(p) <==> s.mutex == Some(i))
    && (p.Leaving? ==> p.next.Outside? || p.next.Acting? || p.next.ActingUnlocked?)
    && (p.AcquirePush? || p.DestroyClose? ==> !s.done)
    && (p.ActingUnlocked? || p == Leaving(ActingUnlocked) ==> s.clients[i].task == Kill)
  }

  ghost predicate MutexOk(s: State) {
    && (s.mutex.Some? ==> s.mutex.value < |s.clients|)
    && forall i: nat :: i < |s.clients| ==> MutexAt(s, i)
  }

  /** Until the end the slot belongs to the one client with a claim; afterwards only a pending
      TryAcquire can have filled it. */
  ghost predicate SlotOk(s: State) {
    && (Ended(s) && s.slot ==> exists i: nat :: PusherAt(s, i))
    && (!Ended(s) && s.slot ==> exists i: nat :: ClaimAt(s, i))
    && (!Ended(s) && !s.slot ==> forall i: nat :: !ClaimAt(s, i))
    && (!Ended(s) ==> forall i: nat, j: nat :: ClaimAt(s, i) && ClaimAt(s, j) ==> i == j)
  }

  ghost predicate OneHolder(s: State) {
    forall i: nat, j: nat :: HolderAt(s, i) && HolderAt(s, j) ==> i == j
  }

  ghost predicate Inv(s: State) {
    MutexOk(s) && SlotOk(s) && OneHolder(s)
  }

  lemma OneClientMoves(s: State, step: Step)
    requires Enabled(s, step)
    ensures var t := Do(s, step);
      |t.clients| == |s.clients| && forall j: nat :: j < |s.clients| && j != step.i ==> t.clients[j] == s.clients[j]
  {
  }

  /** What a client does to the channels and the mutex in each phase. */
  lemma StepEffect(s: State, step: Step)
    requires Inv(s) && Enabled(s, step)
    ensures var t := Do(s, step); |t.clients| == |s.clients| && MutexAt(t, step.i)
    ensures var t, p := Do(s, step), s.clients[step.i].phase;
      && (t.mutex != s.mutex ==>
            (s.mutex.None? && t.mutex == Some(step.i)) || (s.mutex == Some(step.i) && t.mutex.None?))
      && (t.done != s.done ==> s.mutex == Some(step.i) && t.done)
  {
    assert MutexAt(s, step.i);
    if step.Go? {
      match s.clients[step.i].phase
      case AcquireLock =>
      case AcquireCheck =>
      case AcquirePush =>
      case AcquireReturn(_) =>
      case TryCheck =>
      case TryPushed =>
      case TryConfirm =>
      case Acting =>
      case ActingUnlocked =>
      case ReleaseLock =>
      case ReleaseDrain =>
      case DestroyLock =>
      case DestroyCheck =>
      case DestroyClose =>
      case Leaving(_) =>
      case _ =>
    }
  }

  lemma StepKeepsMutexOk(s: State, step: Step)
    requires Inv(s) && Enabled(s, step)
    ensures MutexOk(Do(s, step))
  {
    var t := Do(s, step);
    OneClientMoves(s, step);
    StepEffect(s, step);
    forall j: nat | j < |t.clients| ensures MutexAt(t, j) {
      assert MutexAt(s, j);
    }
  }

  /** A client comes to hold the lock only where it had the only claim on an undestroyed lock. */
  lemma HolderGrows(s: State, step: Step)
    requires Inv(s) && Enabled(s, step)
    ensures var t := Do(s, step); HolderAt(t, step.i) && !HolderAt(s, step.i) ==>
      !Ended(s) && (!s.slot || PusherAt(s, step.i))
  {
    assert MutexAt(s, step.i);
    if step.Go? {
      match s.clients[step.i].phase
      case AcquirePush =>
      case TryConfirm =>
      case Leaving(_) =>
      case _ =>
    }
  }

  lemma StepKeepsOneHolder(s: State, step: Step)
    requires Inv(s) && Enabled(s, step)
    ensures OneHolder(Do(s, step))
  {
    var t := Do(s, step);
    OneClientMoves(s, step);
    HolderGrows(s, step);
    forall i: nat, j: nat | HolderAt(t, i) && HolderAt(t, j) ensures i == j {
      if !HolderAt(s, step.i) && HolderAt(t, step.i) {
        assert i != step.i ==> ClaimAt(s, i);
        assert j != step.i ==> ClaimAt(s, j);
        assert PusherAt(s, step.i) ==> ClaimAt(s, step.i);
      } else {
        assert i != step.i ==> HolderAt(s, i);
        assert j != step.i ==> HolderAt(s, j);
      }
    }
  }

  /** How the claim of the moving client, the slot and the end go together. */
  lemma ClaimMoves(s: State, step: Step)
    requires Inv(s) && Enabled(s, step)
    ensures var t, i := Do(s, step), step.i;
      && (Ended(s) ==> Ended(t))
      && (Ended(t) && !Ended(s) ==> !t.slot)
      && (!Ended(t) && ClaimAt(t, i) && !ClaimAt(s, i) ==> !s.slot && t.slot)
      && (!Ended(t) && ClaimAt(s, i) && !ClaimAt(t, i) ==> !t.slot)
      && (!Ended(t) && ClaimAt(s, i) == ClaimAt(t, i) ==> t.slot == s.slot)
      && (Ended(t) && PusherAt(s, i) && !PusherAt(t, i) ==> !t.slot)
      && (Ended(t) && t.slot && !s.slot ==> PusherAt(t, i))
  {
    assert MutexAt(s, step.i);
    if step.Go? {
      match s.clients[step.i].phase
      case AcquirePush =>
      case TryConfirm =>
      case ReleaseDrain =>
      case DestroyCheck =>
      case DestroyClose =>
      case Leaving(_) =>
      case _ =>
    }
  }

  lemma StepKeepsSlotOk(s: State, step: Step)
    requires Inv(s) && Enabled(s, step)
    ensures SlotOk(Do(s, step))
  {
    var t := Do(s, step);
    OneClientMoves(s, step);
    ClaimMoves(s, step);
    assert forall j: nat :: j != step.i ==> ClaimAt(t, j) == ClaimAt(s, j) && PusherAt(t, j) == PusherAt(s, j);
    if t.slot {
      if PusherAt(t, step.i) || (!Ended(t) && ClaimAt(t, step.i)) {
      } else if Ended(s) {
        var w: nat :| PusherAt(s, w);
        assert PusherAt(t, w);
      } else {
        var w: nat :| ClaimAt(s, w);
        assert ClaimAt(t, w);
      }
    }
  }

  lemma {:induction false} RunKeepsInv(n: nat, states: seq<State>, steps: seq<Step>, k: nat)
    requires Run(n, states, steps) && k < |states|
    ensures Inv(states[k])
  {
    if k > 0 {
      RunKeepsInv(n, states, steps, k - 1);
      StepKeepsMutexOk(states[k - 1], steps[k - 1]);
      StepKeepsOneHolder(states[k - 1], steps[k - 1]);
      StepKeepsSlotOk(states[k - 1], steps[k - 1]);
    }
  }

  // -------------------------------------------------------------- the theorems

  /**
   What an attempt is answered, in every run. Acquire succeeds exactly when nobody has or is about to
   have the lock; TryAcquire, once its value is in the channel, exactly when the lock is not
   destroyed; and a release empties the channel.
   */
  lemma AttemptsAreAnswered(n: nat, states: seq<State>, steps: seq<Step>, k: nat)
    requires Run(n, states, steps) && k < |steps| && steps[k].Go? && steps[k].i < |states[k].clients|
    ensures var s, t, i := states[k], states[k + 1], steps[k].i;
      && (s.clients[i].phase.AcquireCheck? && !s.done ==> t.clients[i].phase.AcquirePush?)
      && (s.clients[i].phase.AcquirePush? ==> (HolderAt(t, i) <==> forall j: nat :: !ClaimAt(s, j)))
      && (s.clients[i].phase.TryConfirm? ==> (HolderAt(t, i) <==> !s.done))
      && (s.clients[i].phase.ReleaseDrain? ==> !t.slot && !HolderAt(t, i))
      && (s.clients[i].phase == Leaving(Acting) ==> t.clients[i].phase.Acting? && t.mutex.None?)
  {
    RunKeepsInv(n, states, steps, k);
    var s, i := states[k], steps[k].i;
    assert Enabled(s, steps[k]) && states[k + 1] == Do(s, steps[k]);
    assert MutexAt(s, i);
    if s.clients[i].phase.AcquirePush? {
      assert !Ended(s);
    }
  }

  /** At most one client holds the lock, in every state of every run. */
  lemma MutualExclusion(n: nat, states: seq<State>, steps: seq<Step>, k: nat, i: nat, j: nat)
    requires Run(n, states, steps) && k < |states|
    requires HolderAt(states[k], i) && HolderAt(states[k], j)
    ensures i == j
  {
    RunKeepsInv(n, states, steps, k);
  }

  /** A start, stop or restart that is under way, or any action that runs with the lock. */
  predicate Exclusive(s: State, i: nat) {
    i < |s.clients| && (s.clients[i].phase.Acting? || (s.clients[i].phase.ActingUnlocked? && s.clients[i].task != Kill))
  }

  /** Start, stop and restart of one server never overlap, with each other or with a locked kill. */
  lemma ActionsNeverOverlap(n: nat, states: seq<State>, steps: seq<Step>, k: nat, i: nat, j: nat)
    requires Run(n, states, steps) && k < |states|
    requires Exclusive(states[k], i) && Exclusive(states[k], j)
    ensures i == j
  {
    RunKeepsInv(n, states, steps, k);
    assert MutexAt(states[k], i) && MutexAt(states[k], j);
    assert HolderAt(states[k], i) && HolderAt(states[k], j);
  }

  /** Once Destroy has drained the channel no acquire is decided in a client's favour any more:
      whoever holds the lock later on has held it since. */
  lemma {:induction false} NoAcquireAfterDestroy(n: nat, states: seq<State>, steps: seq<Step>, k: nat, m: nat, i: nat)
    requires Run(n, states, steps) && k <= m < |states| && Ended(states[k])
    ensures Ended(states[m])
    ensures HolderAt(states[m], i) ==> HolderAt(states[k], i)
    decreases m
  {
    if k < m {
      NoAcquireAfterDestroy(n, states, steps, k, m - 1, i);
      var s, step := states[m - 1], steps[m - 1];
      RunKeepsInv(n, states, steps, m - 1);
      assert Enabled(s, step);
      OneClientMoves(s, step);
      HolderGrows(s, step);
      ClaimMoves(s, step);
    }
  }

  /** After Destroy the channel is empty as soon as no TryAcquire is between its push and its check. */
  lemma EmptyAfterDestroy(n: nat, states: seq<State>, steps: seq<Step>, k: nat)
    requires Run(n, states, steps) && k < |states| && states[k].done
    requires forall i: nat :: !PusherAt(states[k], i)
    ensures !states[k].slot
  {
    RunKeepsInv(n, states, steps, k);
  }
}
