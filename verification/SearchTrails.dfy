/**
 What a search finds, said about the directory tree alone: a match for every trail of entries that
 leads through searchable folders to an entry that matches.
 */
module SearchTrails {
  import opened Common
  import opened SearchPool

  /** Indices of entries, from the top directory down. */
  type Trail = seq<nat>

  predicate NameInRange(name: string) {
    0 < |name| <= MAX_NAME
  }

  /** The path of an entry is that of its directory, a slash and its name; the top directory is a
      slash itself. */
  lemma ChildPathEnds(dir: string, name: string)
    ensures var full := ChildPath(dir, name);
      && dir <= full && |full| > |name| && full[|full| - |name|..] == name && full[|full| - |name| - 1] == '/'
      && |full| == |name| + 1 + if dir == "/" then 0 else |dir|
  {
  }

  /** A folder is passed over when its name matches and its path is too long to report. */
  predicate Searchable(q: Query, path: string, e: Entry) {
    && e.Folder? && NameInRange(e.info.name)
    && (q.nameMatches(e.info.name) ==> |ChildPath(path, e.info.name)| <= MAX_PATH)
  }

  /** An entry is reported when its name matches, or when it is a regular file of an allowed kind
      whose content does. */
  predicate Matching(q: Query, path: string, e: Entry) {
    var name, full := e.info.name, ChildPath(path, e.info.name);
    && NameInRange(name) && |full| <= MAX_PATH && !(e.File? && q.sensitive(name))
    && (|| q.nameMatches(name)
        || (q.contentSearch && e.File? && q.contentAllowed(name)
            && e.info.regular && q.contentMatches(full, e.info.size)))
  }

  /** The trail leads from a directory to an entry reported as `h`. */
  ghost predicate Leads(q: Query, path: string, dir: Dir, trail: Trail, h: Hit)
    decreases |trail|
  {
    && trail != [] && dir.Listing? && trail[0] < |dir.entries|
    && var e := dir.entries[trail[0]];
       if |trail| == 1 then
         Matching(q, path, e) && h == Hit(ChildPath(path, e.info.name), e.File?, e.info.size)
       else Searchable(q, path, e) && Leads(q, ChildPath(path, e.info.name), e.sub, trail[1..], h)
  }

  /** A search of limited depth goes that many levels below the top directory. */
  predicate DeepEnough(q: Query, depth: nat, length: nat) {
    length <= 1 || q.maxDepth <= 0 || depth + length - 1 <= q.maxDepth
  }

  ghost predicate Finds(q: Query, job: Job, trail: Trail, h: Hit) {
    Leads(q, job.path, job.dir, trail, h) && DeepEnough(q, job.depth, |trail|)
  }

  // ------------------------------------------------------------ counting trails

  function Prefixed(i: nat, trails: set<Trail>): set<Trail> {
    set t | t in trails :: [i] + t
  }

  lemma {:induction false} PrefixedSize(i: nat, trails: set<Trail>)
    ensures |Prefixed(i, trails)| == |trails|
    decreases |trails|
  {
    if trails == {} {
      assert Prefixed(i, trails) == {};
    } else {
      var t :| t in trails;
      PrefixedSize(i, trails - {t});
      var rest := Prefixed(i, trails - {t});
      PrefixedMember(i, trails - {t}, [i] + t);
      assert ([i] + t)[1..] == t;
      assert Prefixed(i, trails) == rest + {[i] + t};
    }
  }

  lemma PrefixedMember(i: nat, trails: set<Trail>, t: Trail)
    ensures t in Prefixed(i, trails) <==> t != [] && t[0] == i && t[1..] in trails
  {
    if t != [] && t[0] == i {
      assert [i] + t[1..] == t;
    }
    if t in Prefixed(i, trails) {
      var u :| u in trails && t == [i] + u;
      assert t[1..] == u;
    }
  }

  /** All trails to `h` below a directory, entry by entry. */
  ghost function TrailsOf(q: Query, job: Job, h: Hit): set<Trail>
    decreases job.dir, 1, 0
  {
    match job.dir
    case Unreadable => {}
    case Listing(entries) => TrailsFrom(q, job, 0, h)
  }

  ghost function TrailsFrom(q: Query, job: Job, i: nat, h: Hit): set<Trail>
    requires job.dir.Listing? && i <= |job.dir.entries|
    decreases job.dir, 0, |job.dir.entries| - i
  {
    if i == |job.dir.entries| then {}
    else
      var e := job.dir.entries[i];
      OwnTrail(q, job.path, e, i, h) + TrailsBelow(q, job, i, h) + TrailsFrom(q, job, i + 1, h)
  }

  function OwnTrail(q: Query, path: string, e: Entry, i: nat, h: Hit): set<Trail> {
    if OwnHit(q, path, e) == [h] then {[i]} else {}
  }

  ghost function TrailsBelow(q: Query, job: Job, i: nat, h: Hit): set<Trail>
    requires job.dir.Listing? && i < |job.dir.entries|
    decreases job.dir, 0, 0
  {
    var sub := SubJob(q, job, job.dir.entries[i]);
    if sub.None? then {} else Prefixed(i, TrailsOf(q, sub.value, h))
  }

  // ------------------------------------------------------------ the tree decides

  lemma HitsAreMatches(q: Query, path: string, e: Entry, h: Hit)
    ensures OwnHit(q, path, e) == [h] <==>
      Matching(q, path, e) && h == Hit(ChildPath(path, e.info.name), e.File?, e.info.size)
    ensures Times(OwnHit(q, path, e), h) == if OwnHit(q, path, e) == [h] then 1 else 0
  {
    var own := OwnHit(q, path, e);
    if own != [] {
      assert own[1..] == [];
    }
  }

  lemma SubJobsAreSearchable(q: Query, job: Job, e: Entry)
    ensures SubJob(q, job, e) ==
      if Searchable(q, job.path, e) && (q.maxDepth <= 0 || job.depth < q.maxDepth) then
        Some(Job(ChildPath(job.path, e.info.name), job.depth + 1, e.sub))
      else None
  {
  }

  /** The trails collected entry by entry are exactly those that lead to `h`. */
  lemma {:induction false} TrailsMember(q: Query, job: Job, t: Trail, h: Hit)
    ensures t in TrailsOf(q, job, h) <==> Finds(q, job, t, h)
    decreases job.dir, 1, 0
  {
    if job.dir.Listing? {
      TrailsFromMember(q, job, 0, t, h);
    }
  }

  lemma {:induction false} TrailsFromMember(q: Query, job: Job, i: nat, t: Trail, h: Hit)
    requires job.dir.Listing? && i <= |job.dir.entries|
    ensures t in TrailsFrom(q, job, i, h) <==> t != [] && i <= t[0] && Finds(q, job, t, h)
    decreases job.dir, 0, |job.dir.entries| - i
  {
    if i < |job.dir.entries| {
      TrailsFromMember(q, job, i + 1, t, h);
      var e := job.dir.entries[i];
      HitsAreMatches(q, job.path, e, h);
      TrailsBelowMember(q, job, i, t, h);
      if t != [] && t[0] == i && |t| == 1 {
        assert t == [i];
      }
    }
  }

  lemma {:induction false} TrailsBelowMember(q: Query, job: Job, i: nat, t: Trail, h: Hit)
    requires job.dir.Listing? && i < |job.dir.entries|
    ensures t in TrailsBelow(q, job, i, h) <==> |t| > 1 && t[0] == i && Finds(q, job, t, h)
    decreases job.dir, 0, 0
  {
    var e := job.dir.entries[i];
    SubJobsAreSearchable(q, job, e);
    var sub := SubJob(q, job, e);
    if sub.Some? {
      PrefixedMember(i, TrailsOf(q, sub.value, h), t);
      if t != [] {
        TrailsMember(q, sub.value, t[1..], h);
      }
    }
  }

  lemma {:induction false} TrailsCount(q: Query, job: Job, h: Hit)
    ensures |TrailsOf(q, job, h)| == Times(Walk(q, job), h)
    decreases job.dir, 1, 0
  {
    if job.dir.Listing? {
      TrailsFromCount(q, job, 0, h);
      assert job.dir.entries[0..] == job.dir.entries;
    }
  }

  lemma {:induction false} TrailsFromCount(q: Query, job: Job, i: nat, h: Hit)
    requires job.dir.Listing? && i <= |job.dir.entries|
    ensures |TrailsFrom(q, job, i, h)| == Times(WalkEntries(q, job, job.dir.entries[i..]), h)
    decreases job.dir, 0, |job.dir.entries| - i
  {
    var entries := job.dir.entries[i..];
    if entries != [] {
      TrailsFromCount(q, job, i + 1, h);
      assert entries[1..] == job.dir.entries[i + 1..];
      WalkEntriesTimes(q, job, entries, h);
      HitsAreMatches(q, job.path, entries[0], h);
      TrailsBelowCount(q, job, i, h);
      TrailsApart(q, job, i, h);
    }
  }

  lemma {:induction false} TrailsBelowCount(q: Query, job: Job, i: nat, h: Hit)
    requires job.dir.Listing? && i < |job.dir.entries|
    ensures |TrailsBelow(q, job, i, h)| == Times(Below(q, job, job.dir.entries[i]), h)
    decreases job.dir, 0, 0
  {
    var sub := SubJob(q, job, job.dir.entries[i]);
    if sub.Some? {
      PrefixedSize(i, TrailsOf(q, sub.value, h));
      TrailsCount(q, sub.value, h);
    }
  }

  /** No trail is counted twice. */
  lemma TrailsApart(q: Query, job: Job, i: nat, h: Hit)
    requires job.dir.Listing? && i < |job.dir.entries|
    ensures OwnTrail(q, job.path, job.dir.entries[i], i, h) !! TrailsBelow(q, job, i, h)
    ensures OwnTrail(q, job.path, job.dir.entries[i], i, h) + TrailsBelow(q, job, i, h) !! TrailsFrom(q, job, i + 1, h)
  {
    var own := OwnTrail(q, job.path, job.dir.entries[i], i, h);
    assert forall t :: t in own ==> |t| == 1 && t[0] == i;
    forall t | t in TrailsBelow(q, job, i, h) ensures |t| > 1 && t[0] == i {
      TrailsBelowMember(q, job, i, t, h);
    }
    forall t | t in TrailsFrom(q, job, i + 1, h) ensures t != [] && t[0] > i {
      TrailsFromMember(q, job, i + 1, t, h);
    }
    forall t | t in own + TrailsBelow(q, job, i, h) ensures t !in TrailsFrom(q, job, i + 1, h) {
      assert t[0] == i;
    }
  }

  /** The walk finds every match once for each trail that leads to it, and nothing else. */
  lemma WalkFollowsTheTree(q: Query, job: Job, h: Hit)
    ensures forall t :: t in TrailsOf(q, job, h) <==> Finds(q, job, t, h)
    ensures multiset(Walk(q, job))[h] == |TrailsOf(q, job, h)|
    ensures h in Walk(q, job) <==> exists t :: Finds(q, job, t, h)
  {
    forall t ensures t in TrailsOf(q, job, h) <==> Finds(q, job, t, h) {
      TrailsMember(q, job, t, h);
    }
    TrailsCount(q, job, h);
    TimesIsMultiplicity(Walk(q, job), h);
    if h in Walk(q, job) {
      assert h in multiset(Walk(q, job));
      var t :| t in TrailsOf(q, job, h);
    }
  }

  /** And so does a concurrent search that was neither stopped nor capped. */
  lemma SearchFollowsTheTree(q: Query, root: Job, n: nat, states: seq<State>, steps: seq<Step>, k: nat, h: Hit)
    requires Run(q, root, n, states, steps) && k < |states| && n > 0
    requires Free(q, states[k]) && states[k].resultQueue == []
    requires forall i :: 0 <= i < n && i < |states[k].workers| ==> states[k].workers[i].phase.Exited?
    ensures multiset(states[k].results)[h] == |TrailsOf(q, root, h)|
    ensures h in states[k].results <==> exists t :: Finds(q, root, t, h)
  {
    SameAsSequentialWalk(q, root, n, states, steps, k);
    WalkFollowsTheTree(q, root, h);
    assert h in states[k].results <==> h in multiset(states[k].results);
    assert h in Walk(q, root) <==> h in multiset(Walk(q, root));
  }
}
