/**
 The background reconcile worker and the marker that keeps it single: no request to reconcile is
 lost, because the marker is cleared before the lock is released.
 */
module NetworkWakeup {
  import opened Common

  /** How a worker ended. */
  datatype Outcome = GaveUp | SawDeletion | Served(version: nat)

  datatype Worker =
    | Waiting                      // polling for the lock
    | Acquired                     // has the lock, has not yet looked at its deadline
    | Entered                      // has the lock and goes on
    | Reconciled(outcome: Outcome) // has the lock, loaded what there is to load
    | Cleared(outcome: Outcome)    // has the lock, marker already cleared
    | Abandoning                   // deadline passed, marker not yet cleared
    | Finished(outcome: Outcome)

  datatype Owner = Client(id: int) | Background(id: int)

  /** `version` counts the policies saved so far. */
  datatype State = State(lock: Option<Owner>, marker: bool, version: nat, deleted: bool, workers: map<int, Worker>)

  datatype Step =
    | ClientLock(c: int) | ClientSave(c: int) | ClientDelete(c: int) | ClientSchedule(c: int) | ClientUnlock(c: int)
    | WorkerLock(w: int) | WorkerTimeout(w: int) | WorkerLate(w: int) | WorkerEnter(w: int) | WorkerLoad(w: int)
    | WorkerClear(w: int) | WorkerUnlock(w: int) | WorkerAbandon(w: int)

  const INITIAL := State(None, false, 0, false, map[])

  function NewWorker(s: State): (w: int)
    ensures w !in s.workers
  {
    if s.workers.Keys == {} then 0 else MaxOf(s.workers.Keys) + 1
  }

  predicate Enabled(s: State, step: Step) {
    match step
    case ClientLock(_) => s.lock.None?
    case ClientSave(c) => s.lock == Some(Client(c)) && !s.deleted
    case ClientDelete(c) => s.lock == Some(Client(c))
    case ClientSchedule(c) => s.lock == Some(Client(c))
    case ClientUnlock(c) => s.lock == Some(Client(c))
    case WorkerLock(w) => w in s.workers && s.workers[w].Waiting? && s.lock.None?
    case WorkerTimeout(w) => w in s.workers && s.workers[w].Waiting?
    case WorkerLate(w) => w in s.workers && s.workers[w].Acquired?
    case WorkerEnter(w) => w in s.workers && s.workers[w].Acquired?
    case WorkerLoad(w) => w in s.workers && s.workers[w].Entered?
    case WorkerClear(w) => w in s.workers && s.workers[w].Reconciled?
    case WorkerUnlock(w) => w in s.workers && s.workers[w].Cleared?
    case WorkerAbandon(w) => w in s.workers && s.workers[w].Abandoning?
  }

  function Do(s: State, step: Step): State
    requires Enabled(s, step)
  {
    match step
    case ClientLock(c) => s.(lock := Some(Client(c)))
    case ClientSave(_) => s.(version := s.version + 1)
    case ClientDelete(_) => s.(deleted := true)
    case ClientSchedule(_) =>
      if s.marker then s else s.(marker := true, workers := s.workers[NewWorker(s) := Waiting])
    case ClientUnlock(_) => s.(lock := None)
    case WorkerLock(w) => s.(lock := Some(Background(w)), workers := s.workers[w := Acquired])
    case WorkerTimeout(w) => s.(workers := s.workers[w := Abandoning])
    case WorkerLate(w) => s.(lock := None, workers := s.workers[w := Abandoning])
    case WorkerEnter(w) => s.(workers := s.workers[w := Entered])
    case WorkerLoad(w) =>
      s.(workers := s.workers[w := Reconciled(if s.deleted then SawDeletion else Served(s.version))])
    case WorkerClear(w) => s.(marker := false, workers := s.workers[w := Cleared(s.workers[w].outcome)])
    case WorkerUnlock(w) => s.(lock := None, workers := s.workers[w := Finished(s.workers[w].outcome)])
    case WorkerAbandon(w) => s.(marker := false, workers := s.workers[w := Finished(GaveUp)])
  }

  ghost predicate Run(states: seq<State>, steps: seq<Step>) {
    && |states| == |steps| + 1
    && states[0] == INITIAL
    && forall i :: 0 <= i < |steps| ==> Enabled(states[i], steps[i]) && states[i + 1] == Do(states[i], steps[i])
  }

  /** A worker that has been started and has not yet cleared the marker. */
  predicate Live(w: Worker) {
    !w.Cleared? && !w.Finished?
  }

  predicate Holds(w: Worker) {
    w.Acquired? || w.Entered? || w.Reconciled? || w.Cleared?
  }

  /** The marker stands for exactly one live worker, and the lock for the one that holds it. */
  ghost predicate Inv(s: State) {
    && (s.marker <==> exists w :: w in s.workers && Live(s.workers[w]))
    && (forall v, w :: v in s.workers && w in s.workers && Live(s.workers[v]) && Live(s.workers[w]) ==> v == w)
    && (forall w :: w in s.workers ==> (Holds(s.workers[w]) <==> s.lock == Some(Background(w))))
  }

  lemma StepKeepsInv(s: State, step: Step)
    requires Inv(s) && Enabled(s, step)
    ensures Inv(Do(s, step))
  {
    var t := Do(s, step);
    if t.marker {
      if step.ClientSchedule? && !s.marker {
        assert Live(t.workers[NewWorker(s)]);
      } else {
        var w :| w in s.workers && Live(s.workers[w]);
        assert w in t.workers && Live(t.workers[w]);
      }
    }
  }

  lemma {:induction false} RunKeepsInv(states: seq<State>, steps: seq<Step>, i: nat)
    requires Run(states, steps) && i < |states|
    ensures Inv(states[i])
  {
    if i > 0 {
      RunKeepsInv(states, steps, i - 1);
      StepKeepsInv(states[i - 1], steps[i - 1]);
    }
  }

  /** What a worker loaded was saved, and is not older than `version`; it loads nothing only from a
      server that is deleted. */
  predicate Answers(s: State, o: Outcome, version: nat) {
    match o
    case GaveUp => false
    case SawDeletion => s.deleted
    case Served(v) => version <= v <= s.version
  }

  ghost predicate Follows(s: State, w: int, version: nat) {
    && s.version >= version
    && w in s.workers
    && match s.workers[w]
       case Reconciled(o) => Answers(s, o, version)
       case Cleared(o) => Answers(s, o, version)
       case Finished(o) => o.GaveUp? || Answers(s, o, version)
       case _ => true
  }

  lemma StepKeepsFollows(s: State, step: Step, w: int, version: nat)
    requires Enabled(s, step) && Follows(s, w, version)
    ensures Follows(Do(s, step), w, version)
  {
  }

  lemma {:induction false} FollowsToTheEnd(states: seq<State>, steps: seq<Step>, i: nat, j: nat, w: int, version: nat)
    requires Run(states, steps) && i <= j < |states|
    requires Follows(states[i], w, version)
    ensures Follows(states[j], w, version)
    decreases j
  {
    if i < j {
      FollowsToTheEnd(states, steps, i, j - 1, w, version);
      assert Enabled(states[j - 1], steps[j - 1]) && states[j] == Do(states[j - 1], steps[j - 1]);
      StepKeepsFollows(states[j - 1], steps[j - 1], w, version);
    }
  }

  /** A worker that is still to take the lock, or will not take it any more. */
  ghost predicate NotYetIn(s: State, w: int) {
    w in s.workers && (s.workers[w].Waiting? || s.workers[w].Abandoning?)
  }

  ghost predicate FollowedFrom(states: seq<State>, i: nat, w: int)
    requires i < |states|
  {
    forall j :: i < j < |states| ==> Follows(states[j], w, states[i].version)
  }

  /**
   No lost wakeup. A client that asks for a reconcile, marker set or not, leaves a worker behind
   that does not hold the lock yet; from then on, whenever that worker has ended, it either loaded
   a policy at least as new as the one saved at the time of the request, or gave up its wait, or
   the server is deleted.
   */
  lemma NoLostWakeup(states: seq<State>, steps: seq<Step>, i: nat)
    requires Run(states, steps) && i < |steps| && steps[i].ClientSchedule?
    ensures exists w :: NotYetIn(states[i + 1], w) && FollowedFrom(states, i, w)
  {
    var s, t := states[i], states[i + 1];
    RunKeepsInv(states, steps, i);
    assert Enabled(s, steps[i]) && t == Do(s, steps[i]);
    var w: int;
    if s.marker {
      w :| w in s.workers && Live(s.workers[w]);
      assert !Holds(s.workers[w]);
    } else {
      w := NewWorker(s);
    }
    assert NotYetIn(t, w) && Follows(t, w, s.version);
    forall j | i < j < |states| ensures Follows(states[j], w, s.version) {
      FollowsToTheEnd(states, steps, i + 1, j, w, s.version);
    }
    assert NotYetIn(states[i + 1], w) && FollowedFrom(states, i, w);
  }

  /** A worker that has the lock in time loads the policy or finds the server deleted. */
  ghost predicate Serves(s: State, w: int, version: nat) {
    && s.version >= version && w in s.workers
    && match s.workers[w]
       case Entered => true
       case Reconciled(o) => Answers(s, o, version)
       case Cleared(o) => Answers(s, o, version)
       case Finished(o) => Answers(s, o, version)
       case _ => false
  }

  /** A worker that has entered never gives up, and a server that is not deleted is served. */
  lemma {:induction false} EnteredServes(states: seq<State>, steps: seq<Step>, i: nat, j: nat, w: int)
    requires Run(states, steps) && i <= j < |states|
    requires w in states[i].workers && states[i].workers[w].Entered?
    ensures Serves(states[j], w, states[i].version)
    ensures states[j].workers[w].Finished? && !states[j].deleted ==> states[j].workers[w].outcome.Served?
    decreases j
  {
    if i < j {
      EnteredServes(states, steps, i, j - 1, w);
      assert Enabled(states[j - 1], steps[j - 1]) && states[j] == Do(states[j - 1], steps[j - 1]);
      StepKeepsServes(states[j - 1], steps[j - 1], w, states[i].version);
    }
  }

  lemma StepKeepsServes(s: State, step: Step, w: int, version: nat)
    requires Enabled(s, step) && Serves(s, w, version)
    ensures Serves(Do(s, step), w, version)
  {
  }

  /** Two workers never reconcile at the same time. */
  lemma OneReconcileAtATime(states: seq<State>, steps: seq<Step>, i: nat, v: int, w: int)
    requires Run(states, steps) && i < |states|
    requires v in states[i].workers && w in states[i].workers
    requires Holds(states[i].workers[v]) && Holds(states[i].workers[w])
    ensures v == w
  {
    RunKeepsInv(states, steps, i);
  }
}
