/**
 The concurrent file search: workers that take directories from a bounded channel, put
 subdirectories back and submit batches of matches, and the counter that closes the channel.
 */
module SearchPool {
  import opened Common

  const JOB_CHANNEL := 2048
  const RESULT_CHANNEL := 64
  const BATCH := 16
  const MAX_NAME := 255
  const MAX_PATH := 4096

  // --------------------------------------------------------- the directory tree

  datatype Info = Info(name: string, regular: bool, size: nat)

  datatype Dir = Unreadable | Listing(entries: seq<Entry>)

  datatype Entry = File(info: Info) | Folder(info: Info, sub: Dir)

  datatype Hit = Hit(path: string, isFile: bool, size: nat)

  /** What the query decides about names and contents; at most 0 means no limit. */
  datatype Query = Query(
    nameMatches: string -> bool, sensitive: string -> bool, contentAllowed: string -> bool,
    contentMatches: (string, nat) -> bool, contentSearch: bool, maxDepth: int, maxResults: int)

  datatype Job = Job(path: string, depth: nat, dir: Dir)

  function ChildPath(dir: string, name: string): string {
    if dir == "" || dir == "/" then "/" + name else dir + "/" + name
  }

  /** Whether the entry is looked at beyond its name. */
  predicate Considered(q: Query, e: Entry) {
    q.nameMatches(e.info.name) || (q.contentSearch && e.File? && q.contentAllowed(e.info.name))
  }

  /** Entries passed over altogether, together with anything below them. */
  predicate Skipped(q: Query, path: string, e: Entry) {
    || |e.info.name| == 0 || |e.info.name| > MAX_NAME
    || (Considered(q, e) && (
         || (e.File? && q.sensitive(e.info.name))
         || |ChildPath(path, e.info.name)| > MAX_PATH))
  }

  function HitOf(q: Query, path: string, e: Entry): Option<Hit> {
    if Skipped(q, path, e) || !Considered(q, e) then None
    else
      var full := ChildPath(path, e.info.name);
      if !q.nameMatches(e.info.name) && !(e.info.regular && q.contentMatches(full, e.info.size)) then None
      else Some(Hit(full, e.File?, e.info.size))
  }

  function SubJob(q: Query, job: Job, e: Entry): (r: Option<Job>)
    ensures r.Some? ==> e.Folder? && r.value.dir == e.sub
  {
    if Skipped(q, job.path, e) || e.File? || !(q.maxDepth <= 0 || job.depth < q.maxDepth) then None
    else Some(Job(ChildPath(job.path, e.info.name), job.depth + 1, e.sub))
  }

  // ------------------------------------------------------- the sequential walk

  function OwnHit(q: Query, path: string, e: Entry): seq<Hit> {
    var h := HitOf(q, path, e);
    if h.None? then [] else [h.value]
  }

  /** The matches in the order a single-threaded walk finds them. */
  function Walk(q: Query, job: Job): seq<Hit>
    decreases job.dir, 1
  {
    match job.dir
    case Unreadable => []
    case Listing(entries) => WalkEntries(q, job, entries)
  }

  function WalkEntries(q: Query, job: Job, entries: seq<Entry>): seq<Hit>
    decreases entries, 0
  {
    if entries == [] then []
    else OwnHit(q, job.path, entries[0]) + Below(q, job, entries[0]) + WalkEntries(q, job, entries[1..])
  }

  function Below(q: Query, job: Job, e: Entry): seq<Hit>
    decreases e, 0
  {
    var sub := SubJob(q, job, e);
    if sub.None? then [] else Walk(q, sub.value)
  }

  /** How often `h` is among the matches. */
  function Times(s: seq<Hit>, h: Hit): nat {
    if s == [] then 0 else Times(s[1..], h) + if s[0] == h then 1 else 0
  }

  lemma {:induction false} TimesConcat(a: seq<Hit>, b: seq<Hit>, h: Hit)
    ensures Times(a + b, h) == Times(a, h) + Times(b, h)
  {
    if a == [] {
      assert a + b == b;
    } else {
      TimesConcat(a[1..], b, h);
      assert (a + b)[1..] == a[1..] + b;
    }
  }

  lemma {:induction false} TimesIsMultiplicity(s: seq<Hit>, h: Hit)
    ensures Times(s, h) == multiset(s)[h]
  {
    if s != [] {
      TimesIsMultiplicity(s[1..], h);
      assert s == [s[0]] + s[1..];
    }
  }

  lemma WalkEntriesTimes(q: Query, job: Job, entries: seq<Entry>, h: Hit)
    requires entries != []
    ensures Times(WalkEntries(q, job, entries), h)
         == Times(OwnHit(q, job.path, entries[0]), h) + Times(Below(q, job, entries[0]), h)
          + Times(WalkEntries(q, job, entries[1..]), h)
  {
    var own, below := OwnHit(q, job.path, entries[0]), Below(q, job, entries[0]);
    TimesConcat(own + below, WalkEntries(q, job, entries[1..]), h);
    TimesConcat(own, below, h);
  }

  function JobsWork(q: Query, jobs: seq<Job>, h: Hit): nat {
    if jobs == [] then 0 else JobsWork(q, jobs[..|jobs| - 1], h) + Times(Walk(q, jobs[|jobs| - 1]), h)
  }

  lemma {:induction false} JobsWorkHead(q: Query, jobs: seq<Job>, h: Hit)
    requires jobs != []
    ensures JobsWork(q, jobs, h) == Times(Walk(q, jobs[0]), h) + JobsWork(q, jobs[1..], h)
  {
    if |jobs| > 1 {
      var init := jobs[..|jobs| - 1];
      JobsWorkHead(q, init, h);
      assert init[1..] == jobs[1..][..|jobs| - 2];
    }
  }

  lemma JobsWorkSnoc(q: Query, jobs: seq<Job>, job: Job, h: Hit)
    ensures JobsWork(q, jobs + [job], h) == JobsWork(q, jobs, h) + Times(Walk(q, job), h)
  {
    assert (jobs + [job])[..|jobs|] == jobs;
  }

  // --------------------------------------------------------------- the machine

  datatype Phase =
    | Idle
    | Got(job: Job)
    | Scanning(job: Job, rest: seq<Entry>, subs: seq<Job>)
    | SubmittingScan(job: Job, entry: Entry, rest: seq<Entry>, subs: seq<Job>)
    | Enqueuing(subs: seq<Job>)
    | Sending(sub: Job, subs: seq<Job>)
    | Flushing
    | SubmittingFlush
    | Finishing
    | Closing
    | SubmittingExit
    | Exited

  datatype Worker = Worker(phase: Phase, batch: seq<Hit>)

  /** The request handler: stores the counter, then sends the root or gives up. */
  datatype Starter = Unstored | Stored | CloseNext | Over

  datatype State = State(
    pending: int, queue: seq<Job>, closes: nat, done: bool, count: nat,
    resultQueue: seq<seq<Hit>>, results: seq<Hit>, starter: Starter, workers: seq<Worker>)

  datatype Step =
    | Store | SendRoot | AbortRoot | CloseRoot | Cancel | Collect
    | Take(i: nat) | SeeClosed(i: nat) | SeeDone(i: nat) | Begin(i: nat) | Scan(i: nat)
    | SubmitSend(i: nat) | SubmitDrop(i: nat) | EnqueueNext(i: nat) | Send(i: nat) | SendDrop(i: nat)
    | Flush(i: nat) | Finish(i: nat) | Close(i: nat)

  function Initial(n: nat): State {
    State(0, [], 0, false, 0, [], [], Unstored, seq(n, _ => Worker(Idle, [])))
  }

  predicate Enough(q: Query, s: State) {
    q.maxResults > 0 && s.count >= q.maxResults
  }

  predicate Submitting(p: Phase) {
    p.SubmittingScan? || p.SubmittingFlush? || p.SubmittingExit?
  }

  predicate Enabled(q: Query, s: State, step: Step) {
    match step
    case Store => s.starter.Unstored?
    case SendRoot => s.starter.Stored? && |s.queue| < JOB_CHANNEL
    case AbortRoot => s.starter.Stored? && s.done
    case CloseRoot => s.starter.CloseNext?
    case Cancel => true
    case Collect => s.resultQueue != []
    case Take(i) => i < |s.workers| && s.workers[i].phase.Idle? && s.queue != []
    case SeeClosed(i) => i < |s.workers| && s.workers[i].phase.Idle? && s.closes > 0 && s.queue == []
    case SeeDone(i) => i < |s.workers| && s.workers[i].phase.Idle? && s.done
    case Begin(i) => i < |s.workers| && s.workers[i].phase.Got?
    case Scan(i) => i < |s.workers| && s.workers[i].phase.Scanning?
    case SubmitSend(i) => i < |s.workers| && Submitting(s.workers[i].phase) && |s.resultQueue| < RESULT_CHANNEL
    case SubmitDrop(i) => i < |s.workers| && Submitting(s.workers[i].phase) && s.done
    case EnqueueNext(i) => i < |s.workers| && s.workers[i].phase.Enqueuing?
    case Send(i) => i < |s.workers| && s.workers[i].phase.Sending? && |s.queue| < JOB_CHANNEL
    case SendDrop(i) => i < |s.workers| && s.workers[i].phase.Sending? && s.done
    case Flush(i) => i < |s.workers| && s.workers[i].phase.Flushing?
    case Finish(i) => i < |s.workers| && s.workers[i].phase.Finishing?
    case Close(i) => i < |s.workers| && s.workers[i].phase.Closing?
  }

  function Put(s: State, i: nat, phase: Phase, batch: seq<Hit>): State
    requires i < |s.workers|
  {
    s.(workers := s.workers[i := Worker(phase, batch)])
  }

  /** Leaving the receive loop: what is left of the batch is submitted first. */
  function Leave(s: State, i: nat): State
    requires i < |s.workers|
  {
    var batch := s.workers[i].batch;
    if batch == [] then Put(s, i, Exited, [])
    else Put(s, i, SubmittingExit, batch).(count := s.count + |batch|)
  }

  function ScanOne(q: Query, s: State, i: nat): State
    requires i < |s.workers| && s.workers[i].phase.Scanning?
  {
    var Worker(Scanning(job, rest, subs), batch) := s.workers[i];
    if rest == [] || s.done then Put(s, i, Enqueuing(subs), batch)
    else
      var hit := HitOf(q, job.path, rest[0]);
      var grown := if hit.None? then batch else batch + [hit.value];
      if hit.Some? && |grown| >= BATCH then
        Put(s, i, SubmittingScan(job, rest[0], rest[1..], subs), grown).(count := s.count + |grown|)
      else Put(s, i, Scanning(job, rest[1..], WithSub(q, job, rest[0], subs)), grown)
  }

  function WithSub(q: Query, job: Job, e: Entry, subs: seq<Job>): seq<Job> {
    var sub := SubJob(q, job, e);
    if sub.None? then subs else subs + [sub.value]
  }

  /** After a submit: `stop` is its result, which closes the done channel while scanning or flushing. */
  function Submitted(q: Query, s: State, i: nat, stop: bool): State
    requires i < |s.workers| && Submitting(s.workers[i].phase)
  {
    match s.workers[i].phase
    case SubmittingScan(job, entry, rest, subs) =>
      if stop then Put(s, i, Enqueuing(subs), []).(done := true)
      else Put(s, i, Scanning(job, rest, WithSub(q, job, entry, subs)), [])
    case SubmittingFlush => Put(s, i, Finishing, []).(done := s.done || stop)
    case _ => Put(s, i, Exited, [])
  }

  function CollectOne(q: Query, s: State): State
    requires s.resultQueue != []
  {
    var batch, rest := s.resultQueue[0], s.resultQueue[1..];
    var room := q.maxResults - |s.results|;
    var taken := if q.maxResults <= 0 || |batch| <= room then batch else if room <= 0 then [] else batch[..room];
    s.(resultQueue := rest, results := s.results + taken)
  }

  function Do(q: Query, root: Job, s: State, step: Step): State
    requires Enabled(q, s, step)
  {
    match step
    case Store => s.(pending := 1, starter := Stored)
    case SendRoot => s.(queue := s.queue + [root], starter := Over)
    case AbortRoot => s.(pending := s.pending - 1, starter := if s.pending - 1 == 0 then CloseNext else Over)
    case CloseRoot => s.(closes := s.closes + 1, starter := Over)
    case Cancel => s.(done := true)
    case Collect => CollectOne(q, s)
    case Take(i) => Put(s, i, Got(s.queue[0]), s.workers[i].batch).(queue := s.queue[1..])
    case SeeClosed(i) => Leave(s, i)
    case SeeDone(i) => Leave(s, i)
    case Begin(i) =>
      var Worker(Got(job), batch) := s.workers[i];
      if s.done || Enough(q, s) || job.dir.Unreadable? then Put(s, i, Finishing, batch)
      else Put(s, i, Scanning(job, job.dir.entries, []), batch)
    case Scan(i) => ScanOne(q, s, i)
    case SubmitSend(i) => Submitted(q, s.(resultQueue := s.resultQueue + [s.workers[i].batch]), i, Enough(q, s))
    case SubmitDrop(i) => Submitted(q, s, i, true)
    case EnqueueNext(i) =>
      var Worker(Enqueuing(subs), batch) := s.workers[i];
      if subs == [] || s.done || Enough(q, s) then Put(s, i, Flushing, batch)
      else Put(s, i, Sending(subs[0], subs[1..]), batch).(pending := s.pending + 1)
    case Send(i) =>
      var Worker(Sending(sub, subs), batch) := s.workers[i];
      Put(s, i, Enqueuing(subs), batch).(queue := s.queue + [sub])
    case SendDrop(i) =>
      Put(s, i, Enqueuing(s.workers[i].phase.subs), s.workers[i].batch).(pending := s.pending - 1)
    case Flush(i) =>
      var batch := s.workers[i].batch;
      if batch == [] then Put(s, i, Finishing, [])
      else Put(s, i, SubmittingFlush, batch).(count := s.count + |batch|)
    case Finish(i) =>
      Put(s, i, if s.pending - 1 == 0 then Closing else Idle, s.workers[i].batch).(pending := s.pending - 1)
    case Close(i) => Put(s, i, Idle, s.workers[i].batch).(closes := s.closes + 1)
  }

  ghost predicate Run(q: Query, root: Job, n: nat, states: seq<State>, steps: seq<Step>) {
    && |states| == |steps| + 1
    && states[0] == Initial(n)
    && forall k :: 0 <= k < |steps| ==>
         Enabled(q, states[k], steps[k]) && states[k + 1] == Do(q, root, states[k], steps[k])
  }

  // --------------------------------------------------- the counter counts jobs

  /** Jobs a worker stands for: the one it processes and the one it is putting into the channel. */
  function Weight(p: Phase): nat {
    match p
    case Idle => 0
    case Closing => 0
    case SubmittingExit => 0
    case Exited => 0
    case Sending(_, _) => 2
    case _ => 1
  }

  function Weights(ws: seq<Worker>): nat {
    if ws == [] then 0 else Weights(ws[..|ws| - 1]) + Weight(ws[|ws| - 1].phase)
  }

  lemma {:induction false} WeightsUpdate(ws: seq<Worker>, i: nat, w: Worker)
    requires i < |ws|
    ensures Weights(ws[i := w]) == Weights(ws) - Weight(ws[i].phase) + Weight(w.phase)
    ensures Weight(ws[i].phase) <= Weights(ws)
  {
    var last := |ws| - 1;
    var us := ws[i := w];
    if i < last {
      WeightsUpdate(ws[..last], i, w);
      assert us[..last] == ws[..last][i := w];
    } else {
      assert us[..last] == ws[..last];
    }
  }

  function StarterWeight(s: Starter): nat {
    if s.Stored? then 1 else 0
  }

  /** How many are about to close the channel or have closed it. */
  function Closers(ws: seq<Worker>): nat {
    if ws == [] then 0 else Closers(ws[..|ws| - 1]) + if ws[|ws| - 1].phase.Closing? then 1 else 0
  }

  lemma {:induction false} ClosersUpdate(ws: seq<Worker>, i: nat, w: Worker)
    requires i < |ws|
    ensures Closers(ws[i := w])
         == Closers(ws) - (if ws[i].phase.Closing? then 1 else 0) + (if w.phase.Closing? then 1 else 0)
  {
    var last := |ws| - 1;
    var us := ws[i := w];
    if i < last {
      ClosersUpdate(ws[..last], i, w);
      assert us[..last] == ws[..last][i := w];
    } else {
      assert us[..last] == ws[..last];
    }
  }

  function Closings(s: State): nat {
    s.closes + Closers(s.workers) + if s.starter.CloseNext? then 1 else 0
  }

  /** The counter is the number of jobs queued, being enqueued or being processed; it reaches 0
      once, and whoever brings it there is the only one to close the channel. */
  ghost predicate Counted(s: State) {
    && s.pending == |s.queue| + Weights(s.workers) + StarterWeight(s.starter)
    && Closings(s) <= 1
    && (Closings(s) == 1 ==> s.pending == 0 && !s.starter.Unstored?)
    && (s.starter.Unstored? ==> s.pending == 0)
    && (!s.starter.Unstored? && s.pending == 0 ==> Closings(s) == 1)
  }

  predicate ByWorker(step: Step) {
    !step.Store? && !step.SendRoot? && !step.AbortRoot? && !step.CloseRoot? && !step.Cancel? && !step.Collect?
  }

  /** A worker's step changes that worker and no other. */
  lemma OneWorkerMoves(q: Query, root: Job, s: State, step: Step)
    requires Enabled(q, s, step) && ByWorker(step)
    ensures step.i < |s.workers|
    ensures var t := Do(q, root, s, step);
      |t.workers| == |s.workers| && t.workers == s.workers[step.i := t.workers[step.i]] && t.starter == s.starter
  {
  }

  lemma StepKeepsCounted(q: Query, root: Job, s: State, step: Step)
    requires Counted(s) && Enabled(q, s, step)
    ensures Counted(Do(q, root, s, step))
  {
    if ByWorker(step) {
      WorkerStepKeepsCounted(q, root, s, step);
    }
  }

  /** What a worker's step does to the counter, the channel and the worker's own weight. */
  ghost predicate Balanced(s: State, t: State, w: Phase, u: Phase) {
    && t.pending - |t.queue| - Weight(u) == s.pending - |s.queue| - Weight(w)
    && t.closes == s.closes + (if w.Closing? then 1 else 0)
    && (u.Closing? ==> w.Finishing? && t.pending == 0)
    && (t.pending > s.pending ==> Weight(w) > 0)
    && (t.pending < s.pending ==> Weight(w) == 2 || (w.Finishing? && (u.Closing? <==> t.pending == 0)))
  }

  lemma WorkerStepBalance(q: Query, root: Job, s: State, step: Step)
    requires Enabled(q, s, step) && ByWorker(step) && step.i < |s.workers|
    ensures var t := Do(q, root, s, step);
      |t.workers| == |s.workers| && Balanced(s, t, s.workers[step.i].phase, t.workers[step.i].phase)
  {
    var t, i := Do(q, root, s, step), step.i;
    match step
    case Take(_) =>
    case SeeClosed(_) =>
    case SeeDone(_) =>
    case Begin(_) =>
    case Scan(_) =>
    case SubmitSend(_) =>
    case SubmitDrop(_) =>
    case EnqueueNext(_) =>
    case Send(_) =>
    case SendDrop(_) =>
    case Flush(_) =>
    case Finish(_) =>
    case Close(_) =>
  }

  lemma WorkerStepKeepsCounted(q: Query, root: Job, s: State, step: Step)
    requires Counted(s) && Enabled(q, s, step) && ByWorker(step)
    ensures Counted(Do(q, root, s, step))
  {
    var t := Do(q, root, s, step);
    OneWorkerMoves(q, root, s, step);
    WorkerStepBalance(q, root, s, step);
    WeightsUpdate(s.workers, step.i, t.workers[step.i]);
    ClosersUpdate(s.workers, step.i, t.workers[step.i]);
  }

  // ------------------------------------------------ nothing is lost or invented

  function PhaseWork(q: Query, p: Phase, h: Hit): nat {
    match p
    case Got(job) => Times(Walk(q, job), h)
    case Scanning(job, rest, subs) => Times(WalkEntries(q, job, rest), h) + JobsWork(q, subs, h)
    case SubmittingScan(job, entry, rest, subs) =>
      Times(Below(q, job, entry), h) + Times(WalkEntries(q, job, rest), h) + JobsWork(q, subs, h)
    case Enqueuing(subs) => JobsWork(q, subs, h)
    case Sending(sub, subs) => Times(Walk(q, sub), h) + JobsWork(q, subs, h)
    case _ => 0
  }

  /** How often a worker holds or will still find `h`. */
  function Work(q: Query, w: Worker, h: Hit): nat {
    Times(w.batch, h) + PhaseWork(q, w.phase, h)
  }

  function Works(q: Query, ws: seq<Worker>, h: Hit): nat {
    if ws == [] then 0 else Works(q, ws[..|ws| - 1], h) + Work(q, ws[|ws| - 1], h)
  }

  function Batches(batches: seq<seq<Hit>>, h: Hit): nat {
    if batches == [] then 0 else Times(batches[0], h) + Batches(batches[1..], h)
  }

  lemma {:induction false} WorksUpdate(q: Query, ws: seq<Worker>, i: nat, w: Worker, h: Hit)
    requires i < |ws|
    ensures Works(q, ws[i := w], h) + Work(q, ws[i], h) == Works(q, ws, h) + Work(q, w, h)
  {
    var last := |ws| - 1;
    var us := ws[i := w];
    if i < last {
      WorksUpdate(q, ws[..last], i, w, h);
      assert us[..last] == ws[..last][i := w];
    } else {
      assert us[..last] == ws[..last];
    }
  }

  lemma {:induction false} BatchesSnoc(batches: seq<seq<Hit>>, batch: seq<Hit>, h: Hit)
    ensures Batches(batches + [batch], h) == Batches(batches, h) + Times(batch, h)
  {
    if batches != [] {
      BatchesSnoc(batches[1..], batch, h);
      assert (batches + [batch])[1..] == batches[1..] + [batch];
    }
  }

  lemma WithSubWork(q: Query, job: Job, e: Entry, subs: seq<Job>, h: Hit)
    ensures JobsWork(q, WithSub(q, job, e, subs), h) == JobsWork(q, subs, h) + Times(Below(q, job, e), h)
  {
    var sub := SubJob(q, job, e);
    if sub.Some? {
      JobsWorkSnoc(q, subs, sub.value, h);
    }
  }

  function StarterWork(q: Query, root: Job, s: Starter, h: Hit): nat {
    if s.Unstored? || s.Stored? then Times(Walk(q, root), h) else 0
  }

  /** What the worker at `i`, the job channel and the result channel hold between them. */
  function Local(q: Query, s: State, i: nat, h: Hit): nat
    requires i < |s.workers|
  {
    Work(q, s.workers[i], h) + JobsWork(q, s.queue, h) + Batches(s.resultQueue, h)
  }

  /** How often `h` was collected, is under way or is still to be found. */
  function Remaining(q: Query, root: Job, s: State, h: Hit): nat {
    StarterWork(q, root, s.starter, h) + JobsWork(q, s.queue, h) + Works(q, s.workers, h)
      + Batches(s.resultQueue, h) + Times(s.results, h)
  }

  /** Nothing was stopped and there is no cap on results. */
  ghost predicate Free(q: Query, s: State) {
    !s.done && q.maxResults <= 0
  }

  /** From `s` to `t` nothing is gained, and nothing lost unless the search was stopped or is capped. */
  ghost predicate Conserves(q: Query, t: State, before: nat, after: nat) {
    after <= before && (Free(q, t) ==> after == before)
  }

  /** Looking at one entry turns what it stands for into a match in hand and a job to enqueue. */
  lemma ScanEntryWork(q: Query, job: Job, rest: seq<Entry>, subs: seq<Job>, batch: seq<Hit>, h: Hit)
    requires rest != []
    ensures var grown := batch + OwnHit(q, job.path, rest[0]);
      && Work(q, Worker(Scanning(job, rest, subs), batch), h)
         == Work(q, Worker(Scanning(job, rest[1..], WithSub(q, job, rest[0], subs)), grown), h)
      && Work(q, Worker(Scanning(job, rest, subs), batch), h)
         == Work(q, Worker(SubmittingScan(job, rest[0], rest[1..], subs), grown), h)
  {
    WithSubWork(q, job, rest[0], subs, h);
    WalkEntriesTimes(q, job, rest, h);
    TimesConcat(batch, OwnHit(q, job.path, rest[0]), h);
  }

  lemma ScanLocal(q: Query, s: State, i: nat, h: Hit)
    requires i < |s.workers| && s.workers[i].phase.Scanning?
    ensures var t := ScanOne(q, s, i);
      |t.workers| == |s.workers| && Conserves(q, t, Local(q, s, i, h), Local(q, t, i, h))
  {
    var Worker(Scanning(job, rest, subs), batch) := s.workers[i];
    if rest != [] && !s.done {
      ScanEntryWork(q, job, rest, subs, batch, h);
      var grown := batch + OwnHit(q, job.path, rest[0]);
      var t := ScanOne(q, s, i);
      assert t.workers[i] == Worker(SubmittingScan(job, rest[0], rest[1..], subs), grown)
          || t.workers[i] == Worker(Scanning(job, rest[1..], WithSub(q, job, rest[0], subs)), grown);
    }
  }

  lemma SubmitLocal(q: Query, s: State, i: nat, send: bool, stop: bool, h: Hit)
    requires i < |s.workers| && Submitting(s.workers[i].phase)
    requires !send ==> s.done
    requires stop ==> s.done || q.maxResults > 0
    ensures var sent := if send then s.(resultQueue := s.resultQueue + [s.workers[i].batch]) else s;
      var t := Submitted(q, sent, i, stop);
      |t.workers| == |s.workers| && Conserves(q, t, Local(q, s, i, h), Local(q, t, i, h))
  {
    BatchesSnoc(s.resultQueue, s.workers[i].batch, h);
    if s.workers[i].phase.SubmittingScan? {
      var SubmittingScan(job, entry, rest, subs) := s.workers[i].phase;
      WithSubWork(q, job, entry, subs, h);
    }
  }

  lemma TakeLocal(q: Query, root: Job, s: State, i: nat, h: Hit)
    requires Enabled(q, s, Take(i))
    ensures var t := Do(q, root, s, Take(i)); |t.workers| == |s.workers| && Local(q, t, i, h) == Local(q, s, i, h)
  {
    JobsWorkHead(q, s.queue, h);
  }

  lemma EnqueueLocal(q: Query, root: Job, s: State, i: nat, h: Hit)
    requires Enabled(q, s, EnqueueNext(i))
    ensures var t := Do(q, root, s, EnqueueNext(i));
      |t.workers| == |s.workers| && Conserves(q, t, Local(q, s, i, h), Local(q, t, i, h))
  {
    var subs := s.workers[i].phase.subs;
    if subs != [] {
      JobsWorkHead(q, subs, h);
    }
  }

  lemma SendLocal(q: Query, root: Job, s: State, i: nat, h: Hit)
    requires Enabled(q, s, Send(i))
    ensures var t := Do(q, root, s, Send(i)); |t.workers| == |s.workers| && Local(q, t, i, h) == Local(q, s, i, h)
  {
    JobsWorkSnoc(q, s.queue, s.workers[i].phase.sub, h);
  }

  /** A worker's step moves matches between its hands and the channels. */
  lemma StepLocal(q: Query, root: Job, s: State, step: Step, h: Hit)
    requires Enabled(q, s, step) && ByWorker(step)
    ensures var t := Do(q, root, s, step);
      step.i < |s.workers| == |t.workers| && Conserves(q, t, Local(q, s, step.i, h), Local(q, t, step.i, h))
  {
    match step
    case Scan(i) => ScanLocal(q, s, i, h);
    case SubmitSend(i) => SubmitLocal(q, s, i, true, Enough(q, s), h);
    case SubmitDrop(i) => SubmitLocal(q, s, i, false, true, h);
    case Take(i) => TakeLocal(q, root, s, i, h);
    case EnqueueNext(i) => EnqueueLocal(q, root, s, i, h);
    case Send(i) => SendLocal(q, root, s, i, h);
    case SendDrop(_) =>
    case Begin(_) =>
    case SeeClosed(_) =>
    case SeeDone(_) =>
    case Flush(_) =>
    case Finish(_) =>
    case Close(_) =>
  }

  lemma CollectRemaining(q: Query, root: Job, s: State, h: Hit)
    requires s.resultQueue != []
    ensures var t := CollectOne(q, s); Conserves(q, t, Remaining(q, root, s, h), Remaining(q, root, t, h))
  {
    var batch, t := s.resultQueue[0], CollectOne(q, s);
    var taken := t.results[|s.results|..];
    assert t.results == s.results + taken;
    TimesConcat(s.results, taken, h);
    assert batch == taken + batch[|taken|..];
    TimesConcat(taken, batch[|taken|..], h);
  }

  lemma StepRemaining(q: Query, root: Job, s: State, step: Step, h: Hit)
    requires Enabled(q, s, step)
    ensures var t := Do(q, root, s, step); Conserves(q, t, Remaining(q, root, s, h), Remaining(q, root, t, h))
  {
    var t := Do(q, root, s, step);
    if ByWorker(step) {
      OneWorkerMoves(q, root, s, step);
      StepLocal(q, root, s, step, h);
      WorksUpdate(q, s.workers, step.i, t.workers[step.i], h);
      WorkerKeepsResults(q, root, s, step);
    } else if step.SendRoot? {
      JobsWorkSnoc(q, s.queue, root, h);
    } else if step.Collect? {
      CollectRemaining(q, root, s, h);
    }
  }

  lemma WorkerKeepsResults(q: Query, root: Job, s: State, step: Step)
    requires Enabled(q, s, step) && ByWorker(step)
    ensures Do(q, root, s, step).results == s.results
  {
  }

  // ------------------------------------------------------------- the theorems

  /** Outside a job a worker holds no matches, and it leaves only when the channel is closed or the
      search stopped. */
  ghost predicate Tidy(s: State, w: Worker) {
    && (w.phase.Idle? || w.phase.Got? || w.phase.Finishing? || w.phase.Closing? || w.phase.Exited? ==> w.batch == [])
    && (w.phase.Exited? || w.phase.SubmittingExit? ==> s.closes > 0 || s.done)
  }

  ghost predicate Inv(s: State) {
    && Counted(s)
    && forall i :: 0 <= i < |s.workers| ==> Tidy(s, s.workers[i])
  }

  lemma StepKeepsTidy(q: Query, root: Job, s: State, step: Step)
    requires Inv(s) && Enabled(q, s, step) && ByWorker(step)
    ensures step.i < |s.workers|
    ensures var t := Do(q, root, s, step);
      |t.workers| == |s.workers| && Tidy(t, t.workers[step.i]) && t.closes >= s.closes && (s.done ==> t.done)
  {
    assert Tidy(s, s.workers[step.i]);
    match step
    case Take(_) =>
    case SeeClosed(_) =>
    case SeeDone(_) =>
    case Begin(_) =>
    case Scan(_) =>
    case SubmitSend(_) =>
    case SubmitDrop(_) =>
    case EnqueueNext(_) =>
    case Send(_) =>
    case SendDrop(_) =>
    case Flush(_) =>
    case Finish(_) =>
    case Close(_) =>
  }

  lemma StepKeepsInv(q: Query, root: Job, s: State, step: Step)
    requires Inv(s) && Enabled(q, s, step)
    ensures Inv(Do(q, root, s, step))
  {
    var t := Do(q, root, s, step);
    StepKeepsCounted(q, root, s, step);
    if ByWorker(step) {
      StepKeepsTidy(q, root, s, step);
      OneWorkerMoves(q, root, s, step);
    }
    forall i | 0 <= i < |t.workers| ensures Tidy(t, t.workers[i]) {
      assert Tidy(s, s.workers[i]);
    }
  }

  lemma {:induction false} IdleWorkers(q: Query, n: nat, h: Hit)
    ensures var ws := Initial(n).workers; Weights(ws) == 0 && Closers(ws) == 0 && Works(q, ws, h) == 0
  {
    if n > 0 {
      IdleWorkers(q, n - 1, h);
      assert Initial(n).workers[..n - 1] == Initial(n - 1).workers;
    }
  }

  /** Along every run the invariant holds, and no match is ever gained; without a stop or a cap none is lost. */
  lemma {:induction false} RunKeepsInv(q: Query, root: Job, n: nat, states: seq<State>, steps: seq<Step>, k: nat,
                                       h: Hit)
    requires Run(q, root, n, states, steps) && k < |states|
    ensures Inv(states[k]) && |states[k].workers| == n
    ensures Conserves(q, states[k], Times(Walk(q, root), h), Remaining(q, root, states[k], h))
  {
    if k == 0 {
      IdleWorkers(q, n, h);
    } else {
      RunKeepsInv(q, root, n, states, steps, k - 1, h);
      assert Enabled(q, states[k - 1], steps[k - 1]);
      StepKeepsInv(q, root, states[k - 1], steps[k - 1]);
      StepRemaining(q, root, states[k - 1], steps[k - 1], h);
      StepMonotone(q, root, states[k - 1], steps[k - 1]);
    }
  }

  lemma StepMonotone(q: Query, root: Job, s: State, step: Step)
    requires Enabled(q, s, step)
    ensures var t := Do(q, root, s, step); |t.workers| == |s.workers| && (s.done ==> t.done)
  {
  }

  /** The counter counts the jobs queued, being enqueued and being processed; the job channel is
      closed at most once, and never while anyone could still send on it. */
  lemma ClosedOnceAndSafely(q: Query, root: Job, n: nat, states: seq<State>, steps: seq<Step>, k: nat)
    requires Run(q, root, n, states, steps) && k < |states|
    ensures var s := states[k];
      && s.pending == |s.queue| + Weights(s.workers) + StarterWeight(s.starter)
      && s.closes <= 1
      && (s.closes == 1 ==> s.queue == [] && !s.starter.Unstored? && !s.starter.Stored?)
      && (s.closes == 1 ==> forall i :: 0 <= i < |s.workers| ==> Weight(s.workers[i].phase) == 0)
      && (!s.starter.Unstored? && s.pending == 0 ==> Closings(s) == 1)
  {
    var s := states[k];
    RunKeepsInv(q, root, n, states, steps, k, Hit("", false, 0));
    forall i | 0 <= i < |s.workers| ensures Weight(s.workers[i].phase) <= Weights(s.workers) {
      WeightsUpdate(s.workers, i, s.workers[i]);
    }
  }

  lemma {:induction false} NothingHeld(q: Query, ws: seq<Worker>, h: Hit)
    requires forall i :: 0 <= i < |ws| ==> ws[i].phase.Exited? && ws[i].batch == []
    ensures Works(q, ws, h) == 0
  {
    if ws != [] {
      NothingHeld(q, ws[..|ws| - 1], h);
    }
  }

  /**
   The concurrent search finds what the sequential walk finds: once every worker has left and the
   collector has drained the results, with no stop and no cap, the collected matches are those of
   the walk, each as often.
   */
  lemma SameAsSequentialWalk(q: Query, root: Job, n: nat, states: seq<State>, steps: seq<Step>, k: nat)
    requires Run(q, root, n, states, steps) && k < |states| && n > 0
    requires Free(q, states[k])
    requires forall i :: 0 <= i < n && i < |states[k].workers| ==> states[k].workers[i].phase.Exited?
    requires states[k].resultQueue == []
    ensures multiset(states[k].results) == multiset(Walk(q, root))
  {
    var s := states[k];
    forall h: Hit ensures multiset(s.results)[h] == multiset(Walk(q, root))[h] {
      RunKeepsInv(q, root, n, states, steps, k, h);
      assert Tidy(s, s.workers[0]);
      ClosedOnceAndSafely(q, root, n, states, steps, k);
      forall i | 0 <= i < |s.workers| ensures s.workers[i].batch == [] {
        assert Tidy(s, s.workers[i]);
      }
      NothingHeld(q, s.workers, h);
      TimesIsMultiplicity(s.results, h);
      TimesIsMultiplicity(Walk(q, root), h);
    }
  }

  /** Stopped, capped or still running: what has been collected is always part of what the walk finds. */
  lemma NeverMoreThanTheWalk(q: Query, root: Job, n: nat, states: seq<State>, steps: seq<Step>, k: nat)
    requires Run(q, root, n, states, steps) && k < |states|
    ensures multiset(states[k].results) <= multiset(Walk(q, root))
  {
    var s := states[k];
    forall h: Hit ensures multiset(s.results)[h] <= multiset(Walk(q, root))[h] {
      RunKeepsInv(q, root, n, states, steps, k, h);
      TimesIsMultiplicity(s.results, h);
      TimesIsMultiplicity(Walk(q, root), h);
    }
  }

  /** A capped search never returns more than its cap, however late its workers notice. */
  lemma {:induction false} NeverMoreThanTheCap(
    q: Query, root: Job, n: nat, states: seq<State>, steps: seq<Step>, k: nat)
    requires Run(q, root, n, states, steps) && k < |states| && q.maxResults > 0
    ensures |states[k].results| <= q.maxResults
  {
    if k > 0 {
      NeverMoreThanTheCap(q, root, n, states, steps, k - 1);
      var s, step := states[k - 1], steps[k - 1];
      assert Enabled(q, s, step) && states[k] == Do(q, root, s, step);
      if ByWorker(step) {
        WorkerKeepsResults(q, root, s, step);
      }
    }
  }
}
