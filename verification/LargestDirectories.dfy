/**
 The largest-directories report: subtree totals in saturating 64-bit arithmetic, and the choice
 of the directories that hold most of the space.
 */
module LargestDirectories {
  import opened Common

  const LEAST_REPORTED := 10
  const MOST_REPORTED := 50

  /** A cleaned absolute path: the top directory, or a name below a parent. */
  datatype Path = Top | Sub(parent: Path, name: string)

  predicate AtOrBelow(p: Path, d: Path) {
    p == d || (p.Sub? && AtOrBelow(p.parent, d))
  }

  predicate Below(p: Path, d: Path) {
    p != d && AtOrBelow(p, d)
  }

  function Depth(p: Path): nat {
    if p.Top? then 0 else 1 + Depth(p.parent)
  }

  lemma {:induction false} DepthGrows(p: Path, d: Path)
    requires AtOrBelow(p, d)
    ensures Depth(d) <= Depth(p)
    ensures Depth(d) == Depth(p) ==> p == d
  {
    if p != d {
      DepthGrows(p.parent, d);
    }
  }

  // ------------------------------------------------------------------ arithmetic

  function SaturatingAdd(current: int, value: int): (r: int)
    requires 0 <= current <= MAX_INT64 && -MAX_INT64 - 1 <= value <= MAX_INT64
    ensures value >= 0 ==> r == Clamp(current + value)
    ensures -MAX_INT64 - 1 <= r <= MAX_INT64
  {
    if value > 0 && current > MAX_INT64 - value then MAX_INT64 else current + value
  }

  function Clamp(x: int): int {
    if x < MAX_INT64 then x else MAX_INT64
  }

  /** The two measures of a directory: its apparent size and the blocks it takes. */
  datatype Sizes = Sizes(logical: int, physical: int) {
    predicate Valid() {
      0 <= logical <= MAX_INT64 && 0 <= physical <= MAX_INT64
    }

    predicate NonNegative() {
      0 <= logical && 0 <= physical
    }

    function Plus(other: Sizes): Sizes {
      Sizes(logical + other.logical, physical + other.physical)
    }

    function Clamped(): Sizes {
      Sizes(Clamp(logical), Clamp(physical))
    }

    function SaturatingPlus(other: Sizes): Sizes
      requires Valid() && other.Valid()
    {
      Sizes(SaturatingAdd(logical, other.logical), SaturatingAdd(physical, other.physical))
    }
  }

  const ZERO := Sizes(0, 0)

  /** Clamping early or late makes no difference. */
  lemma ClampLate(a: Sizes, b: Sizes)
    requires a.NonNegative() && b.NonNegative()
    ensures a.Clamped().SaturatingPlus(b.Clamped()) == a.Plus(b).Clamped()
  {
  }

  function Sum(files: seq<Sizes>): (s: Sizes)
    ensures (forall i :: 0 <= i < |files| ==> files[i].NonNegative()) ==> s.NonNegative()
  {
    if files == [] then ZERO else Sum(files[..|files| - 1]).Plus(files[|files| - 1])
  }

  /** The own size of a directory, from the files counted in it. */
  method OwnSize(files: seq<Sizes>) returns (own: Sizes)
    requires forall i :: 0 <= i < |files| ==> files[i].Valid()
    ensures own.Valid() && own == Sum(files).Clamped()
  {
    own := ZERO;
    for i := 0 to |files|
      invariant own.Valid() && own == Sum(files[..i]).Clamped()
    {
      assert files[..i + 1][..i] == files[..i];
      ClampLate(Sum(files[..i]), files[i]);
      own := own.SaturatingPlus(files[i]);
    }
    assert files[..|files|] == files;
  }

  // ---------------------------------------------------------------- subtree totals

  type Sized = map<Path, Sizes>

  /** The sum over a set of directories, in unbounded integers. */
  ghost function SumOf(w: Sized, s: set<Path>): (r: Sizes)
    requires s <= w.Keys
    ensures (forall p :: p in s ==> w[p].NonNegative()) ==> r.NonNegative()
    decreases |s|
  {
    if s == {} then ZERO else w[Any(s)].Plus(SumOf(w, s - {Any(s)}))
  }

  ghost function Any(s: set<Path>): (p: Path)
    requires s != {}
    ensures p in s
  {
    var p :| p in s;
    p
  }

  lemma Swap(a: Sizes, b: Sizes, c: Sizes)
    ensures a.Plus(b.Plus(c)) == b.Plus(a.Plus(c))
  {
  }

  /** The sum does not depend on the order the directories are taken in. */
  lemma {:induction false} SumAnyOrder(w: Sized, s: set<Path>, p: Path)
    requires s <= w.Keys && p in s
    ensures SumOf(w, s) == w[p].Plus(SumOf(w, s - {p}))
    decreases |s|
  {
    var q := Any(s);
    if p != q {
      SumAnyOrder(w, s - {q}, p);
      SumAnyOrder(w, s - {p}, q);
      assert s - {q} - {p} == s - {p} - {q};
      Swap(w[q], w[p], SumOf(w, s - {q} - {p}));
    }
  }

  /** The directories at or below `d`. */
  function Subtree(s: set<Path>, d: Path): set<Path> {
    set p | p in s && AtOrBelow(p, d)
  }

  /** The total of `d`: everything at or below it, clamped once at the end. */
  ghost function Total(own: Sized, d: Path): Sizes {
    SumOf(own, Subtree(own.Keys, d)).Clamped()
  }

  /** The part of the subtree of `d` that has reached its total: itself, and what was handed up. */
  function Seen(own: Sized, done: set<Path>, d: Path): (s: set<Path>)
    ensures s <= own.Keys
  {
    set p | p in own && AtOrBelow(p, d) && (p == d || p in done)
  }

  ghost predicate Collected(own: Sized, done: set<Path>, total: Sized, d: Path) {
    d in total && total[d] == SumOf(own, Seen(own, done, d)).Clamped()
  }

  /** All directories of the walk, with their own sizes. */
  ghost predicate Walked(own: Sized, root: Path) {
    && root in own
    && (forall p :: p in own ==> own[p].Valid())
    && (forall p :: p in own ==> AtOrBelow(p, root))
  }

  /** Adds the own size of `path` to every ancestor that was walked. */
  method AddToAncestors(total: Sized, path: Path, value: Sizes, root: Path) returns (next: Sized)
    requires Below(path, root) && value.Valid()
    requires forall d :: d in total ==> total[d].Valid() && AtOrBelow(d, root)
    ensures next.Keys == total.Keys
    ensures forall d :: d in total ==> next[d] == if Below(path, d) then total[d].SaturatingPlus(value) else total[d]
  {
    next := total;
    var parent := path.parent;
    var more := true;
    while more
      invariant next.Keys == total.Keys && AtOrBelow(path.parent, parent) && AtOrBelow(parent, root)
      invariant more ==> forall d :: d in total ==>
        next[d] == if Below(path, d) && !AtOrBelow(parent, d) then total[d].SaturatingPlus(value) else total[d]
      invariant !more ==> forall d :: d in total ==>
        next[d] == if Below(path, d) then total[d].SaturatingPlus(value) else total[d]
      decreases more, Depth(parent)
    {
      HandUp(path, parent);
      if parent in next {
        next := next[parent := next[parent].SaturatingPlus(value)];
      }
      if parent == root || parent == Top {
        RootEnds(total, root);
        more := false;
      } else {
        parent := parent.parent;
      }
    }
  }

  lemma HandUp(path: Path, parent: Path)
    requires path.Sub? && AtOrBelow(path.parent, parent)
    ensures Below(path, parent)
    ensures parent.Sub? ==> AtOrBelow(path.parent, parent.parent) && !AtOrBelow(parent.parent, parent)
  {
    DepthGrows(path.parent, parent);
    if parent.Sub? {
      if AtOrBelow(parent.parent, parent) {
        DepthGrows(parent.parent, parent);
      }
      BelowParent(path.parent, parent);
    }
  }

  lemma {:induction false} BelowParent(p: Path, d: Path)
    requires AtOrBelow(p, d) && d.Sub?
    ensures AtOrBelow(p, d.parent)
  {
    if p != d {
      BelowParent(p.parent, d);
    }
  }

  /** Nothing that was walked lies above the root. */
  lemma RootEnds(total: Sized, root: Path)
    requires forall d :: d in total ==> AtOrBelow(d, root)
    ensures forall d :: d in total && AtOrBelow(root, d) ==> d == root
  {
    forall d | d in total && AtOrBelow(root, d) ensures d == root {
      DepthGrows(root, d);
      DepthGrows(d, root);
    }
  }

  lemma SumAlone(own: Sized, d: Path)
    requires d in own
    ensures SumOf(own, {d}) == own[d]
  {
    SumAnyOrder(own, {d}, d);
    assert {d} - {d} == {};
  }

  /** One more directory handed up. */
  lemma CollectedStep(own: Sized, done: set<Path>, path: Path, before: Sizes, after: Sizes, d: Path)
    requires path in own && d in own && path !in done
    requires forall p :: p in own ==> own[p].Valid()
    requires before.Valid() && before == SumOf(own, Seen(own, done, d)).Clamped()
    requires after == if Below(path, d) then before.SaturatingPlus(own[path]) else before
    ensures after == SumOf(own, Seen(own, done + {path}, d)).Clamped()
  {
    var old', new' := Seen(own, done, d), Seen(own, done + {path}, d);
    if Below(path, d) {
      assert new' - {path} == old';
      SumAnyOrder(own, new', path);
      ClampLate(SumOf(own, old'), own[path]);
    } else {
      assert new' == old';
    }
  }

  ghost predicate AllCollected(own: Sized, done: set<Path>, total: Sized) {
    total.Keys == own.Keys && forall d :: d in own ==> Collected(own, done, total, d)
  }

  lemma SumsAreValid(own: Sized, done: set<Path>, total: Sized)
    requires AllCollected(own, done, total) && forall p :: p in own ==> own[p].Valid()
    ensures forall d :: d in total ==> total[d].Valid()
  {
    forall d | d in total ensures total[d].Valid() {
      assert Collected(own, done, total, d);
      assert SumOf(own, Seen(own, done, d)).NonNegative();
    }
  }

  lemma NoneCollected(own: Sized)
    requires forall p :: p in own ==> own[p].Valid()
    ensures AllCollected(own, {}, own)
  {
    forall d | d in own ensures Collected(own, {}, own, d) {
      assert Seen(own, {}, d) == {d};
      SumAlone(own, d);
    }
  }

  lemma CollectedAll(own: Sized, root: Path, total: Sized)
    requires Walked(own, root) && AllCollected(own, own.Keys - {root}, total)
    ensures forall d :: d in own ==> total[d] == Total(own, d)
  {
    RootEnds(own, root);
    forall d | d in own ensures total[d] == Total(own, d) {
      assert Collected(own, own.Keys - {root}, total, d);
      assert Seen(own, own.Keys - {root}, d) == Subtree(own.Keys, d);
    }
  }

  method HandUpOne(own: Sized, root: Path, total: Sized, path: Path, ghost done: set<Path>) returns (next: Sized)
    requires Walked(own, root) && AllCollected(own, done, total)
    requires path in own && path != root && path !in done
    ensures AllCollected(own, done + {path}, next)
  {
    SumsAreValid(own, done, total);
    next := AddToAncestors(total, path, own[path], root);
    forall d | d in own ensures Collected(own, done + {path}, next, d) {
      assert Collected(own, done, total, d);
      CollectedStep(own, done, path, total[d], next[d], d);
    }
  }

  lemma MoveOne(all: set<Path>, left: set<Path>, path: Path)
    requires path in left && left <= all
    ensures path !in all - left
    ensures all - (left - {path}) == (all - left) + {path}
  {
  }

  /** Whatever order the directories are visited in, every total is that of its subtree. */
  method SubtreeTotals(own: Sized, root: Path) returns (total: Sized)
    requires Walked(own, root)
    ensures total.Keys == own.Keys
    ensures forall d :: d in own ==> total[d] == Total(own, d)
  {
    total := own;
    NoneCollected(own);
    var left := own.Keys - {root};
    ghost var done, all: set<Path> := {}, left;
    while left != {}
      invariant left <= all && done == all - left
      invariant AllCollected(own, done, total)
      decreases left
    {
      var path :| path in left;
      total := HandUpOne(own, root, total, path, done);
      MoveOne(all, left, path);
      left, done := left - {path}, done + {path};
    }
    assert done == all;
    CollectedAll(own, root, total);
  }

  /** Clamping each directory first gives the same totals as adding up all files. */
  lemma {:induction false} EarlyClamp(own: Sized, raw: Sized, s: set<Path>)
    requires s <= own.Keys && s <= raw.Keys
    requires forall p :: p in s ==> raw[p].NonNegative() && own[p] == raw[p].Clamped()
    ensures SumOf(own, s).Clamped() == SumOf(raw, s).Clamped()
    decreases |s|
  {
    if s != {} {
      var p := Any(s);
      EarlyClamp(own, raw, s - {p});
      ClampLate(raw[p], SumOf(raw, s - {p}));
    }
  }

  /** What the files counted in each directory add up to. */
  ghost function Raw(files: map<Path, seq<Sizes>>): (raw: Sized)
    ensures raw.Keys == files.Keys
  {
    map p | p in files :: Sum(files[p])
  }

  /** Each total is the size of all files counted at or below the directory, clamped once. */
  lemma TotalOfFiles(files: map<Path, seq<Sizes>>, own: Sized, d: Path)
    requires own.Keys == files.Keys
    requires forall p, i :: p in files && 0 <= i < |files[p]| ==> files[p][i].NonNegative()
    requires forall p :: p in files ==> own[p] == Sum(files[p]).Clamped()
    ensures Total(own, d) == SumOf(Raw(files), Subtree(files.Keys, d)).Clamped()
  {
    EarlyClamp(own, Raw(files), Subtree(files.Keys, d));
  }

  // ------------------------------------------------------- which ones are reported

  /** A directory below the root that holds files itself; `rank` places its path in string order. */
  datatype Candidate = Candidate(path: Path, rank: int, logical: int)

  /** Larger first, then by path. */
  predicate Before(a: Candidate, b: Candidate) {
    a.logical > b.logical || (a.logical == b.logical && a.rank < b.rank)
  }

  ghost predicate Ordered(list: seq<Candidate>) {
    forall i, j :: 0 <= i < j < |list| ==> Before(list[i], list[j])
  }

  /** The order of the candidates is determined, so it does not depend on how they were collected. */
  lemma {:induction false} OrderIsDetermined(a: seq<Candidate>, b: seq<Candidate>)
    requires Ordered(a) && Ordered(b) && forall c :: c in a <==> c in b
    ensures a == b
  {
    NotEmptyEither(a, b);
    NotEmptyEither(b, a);
    if a != [] {
      assert a[0] in b && b[0] in a;
      assert a[0] == b[0];
      SameRest(a, b);
      SameRest(b, a);
      OrderIsDetermined(a[1..], b[1..]);
    }
  }

  lemma NotEmptyEither(a: seq<Candidate>, b: seq<Candidate>)
    requires forall c :: c in a ==> c in b
    ensures a != [] ==> b != []
  {
    if a != [] {
      assert a[0] in b;
    }
  }

  lemma SameRest(a: seq<Candidate>, b: seq<Candidate>)
    requires Ordered(a) && a != [] && b != [] && a[0] == b[0] && forall c :: c in a ==> c in b
    ensures forall c :: c in a[1..] ==> c in b[1..]
  {
    forall c | c in a[1..] ensures c in b[1..] {
      var i :| 1 <= i < |a| && a[i] == c;
      assert Before(a[0], a[i]) && c in a;
      assert b == [b[0]] + b[1..];
    }
  }

  function Space(list: seq<Candidate>): int {
    if list == [] then 0 else Space(list[..|list| - 1]) + list[|list| - 1].logical
  }

  lemma {:induction false} SpaceConcat(a: seq<Candidate>, b: seq<Candidate>)
    ensures Space(a + b) == Space(a) + Space(b)
    decreases |b|
  {
    if b == [] {
      assert a + b == a;
    } else {
      SpaceConcat(a, b[..|b| - 1]);
      assert (a + b)[..|a + b| - 1] == a + b[..|b| - 1];
    }
  }

  function Inserted(list: seq<Candidate>, i: nat, c: Candidate): seq<Candidate>
    requires i <= |list|
  {
    list[..i] + [c] + list[i..]
  }

  lemma InsertedSpace(list: seq<Candidate>, i: nat, c: Candidate)
    requires i <= |list|
    ensures Space(Inserted(list, i, c)) == Space(list) + c.logical
  {
    assert list == list[..i] + list[i..];
    SpaceConcat(list[..i], list[i..]);
    SpaceConcat(list[..i] + [c], list[i..]);
    assert (list[..i] + [c])[..i] == list[..i];
  }

  lemma InsertedOrdered(list: seq<Candidate>, i: nat, c: Candidate)
    requires i <= |list| && Ordered(list)
    requires forall k :: 0 <= k < i ==> Before(list[k], c)
    requires forall k :: i <= k < |list| ==> Before(c, list[k])
    ensures Ordered(Inserted(list, i, c))
  {
  }

  lemma InsertedMembers(list: seq<Candidate>, i: nat, c: Candidate)
    requires i <= |list|
    ensures forall x :: x in Inserted(list, i, c) <==> x in list || x == c
  {
    forall x ensures x in Inserted(list, i, c) <==> x in list || x == c {
      InEitherPart(list, i, x);
    }
  }

  /** Puts a candidate where it belongs. */
  method Place(list: seq<Candidate>, c: Candidate) returns (next: seq<Candidate>)
    requires Ordered(list) && forall x :: x in list ==> x.rank != c.rank
    ensures Ordered(next) && Space(next) == Space(list) + c.logical
    ensures forall x :: x in next <==> x in list || x == c
    ensures |next| == |list| + 1
  {
    var i := 0;
    while i < |list| && Before(list[i], c)
      invariant 0 <= i <= |list| && forall k :: 0 <= k < i ==> Before(list[k], c)
    {
      i := i + 1;
    }
    if i < |list| {
      assert list[i] in list;
    }
    next := Inserted(list, i, c);
    InsertedOrdered(list, i, c);
    InsertedSpace(list, i, c);
    InsertedMembers(list, i, c);
  }

  ghost predicate IsCandidate(own: Sized, root: Path, rank: Path -> int, c: Candidate) {
    c.path in own && c.path != root && own[c.path].logical > 0
    && c == Candidate(c.path, rank(c.path), own[c.path].logical)
  }

  /** All candidates in order, and the space they hold. */
  method Collect(own: Sized, root: Path, rank: Path -> int) returns (list: seq<Candidate>, total: int)
    requires forall p :: p in own ==> own[p].Valid()
    requires forall p, q :: p in own && q in own && rank(p) == rank(q) ==> p == q
    ensures Ordered(list) && forall c :: c in list <==> IsCandidate(own, root, rank, c)
    ensures 0 <= total == Clamp(Space(list))
  {
    list, total := [], 0;
    var left := own.Keys;
    while left != {}
      invariant left <= own.Keys
      invariant Ordered(list) && forall c :: c in list <==> IsCandidate(own, root, rank, c) && c.path !in left
      invariant 0 <= total == Clamp(Space(list)) && 0 <= Space(list)
      decreases left
    {
      var path :| path in left;
      left := left - {path};
      if path != root && own[path].logical > 0 {
        list := Place(list, Candidate(path, rank(path), own[path].logical));
        total := SaturatingAdd(total, own[path].logical);
      }
    }
  }

  /** Nine tenths of the space, rounded up. */
  function Threshold(list: seq<Candidate>): int {
    Clamp(Space(list)) - Clamp(Space(list)) / 10
  }

  /** The shortest beginning of the list that reaches the threshold. */
  ghost predicate Shortest(list: seq<Candidate>, k: nat) {
    && k <= |list| && Clamp(Space(list[..k])) >= Threshold(list)
    && forall j :: 0 <= j < k ==> Clamp(Space(list[..j])) < Threshold(list)
  }

  /** At least ten and at most fifty, as far as there are any. */
  function Reported(k: nat, available: nat): nat {
    var wanted := if k < LEAST_REPORTED then LEAST_REPORTED else if k > MOST_REPORTED then MOST_REPORTED else k;
    if wanted > available then available else wanted
  }

  lemma {:induction false} SpaceGrows(list: seq<Candidate>, k: nat)
    requires k <= |list| && forall i :: 0 <= i < |list| ==> list[i].logical >= 0
    ensures 0 <= Space(list[..k])
  {
    if k > 0 {
      SpaceGrows(list, k - 1);
      assert list[..k][..k - 1] == list[..k - 1];
    }
  }

  /** Walks the ordered list until the threshold is reached. */
  method Reach(list: seq<Candidate>, total: int) returns (cutoff: nat)
    requires forall i :: 0 <= i < |list| ==> 0 < list[i].logical <= MAX_INT64
    requires total == Clamp(Space(list)) && total > 0
    ensures Shortest(list, cutoff)
  {
    var threshold := total - total / 10;
    var cumulative, i := 0, 0;
    while i < |list| && cumulative < threshold
      invariant i <= |list| && 0 <= cumulative == Clamp(Space(list[..i]))
      invariant forall j :: 0 <= j < i ==> Clamp(Space(list[..j])) < threshold
    {
      SpaceGrows(list, i);
      assert list[..i + 1][..i] == list[..i];
      cumulative := SaturatingAdd(cumulative, list[i].logical);
      i := i + 1;
    }
    assert list[..|list|] == list;
    cutoff := i;
  }

  /** How many of the ordered candidates are reported. */
  method Cutoff(list: seq<Candidate>, total: int) returns (cutoff: nat)
    requires forall i :: 0 <= i < |list| ==> 0 < list[i].logical <= MAX_INT64
    requires total == Clamp(Space(list)) && total > 0
    ensures exists k :: Shortest(list, k) && cutoff == Reported(k, |list|)
  {
    cutoff := Reach(list, total);
    ghost var k := cutoff;
    if cutoff < LEAST_REPORTED {
      cutoff := if LEAST_REPORTED > |list| then |list| else LEAST_REPORTED;
    }
    if cutoff > MOST_REPORTED {
      cutoff := MOST_REPORTED;
    }
    assert cutoff == Reported(k, |list|);
  }

  datatype Entry = Entry(path: Path, size: Sizes)

  /** One of the first `n` candidates with its subtree total; its rank is its place among them. */
  ghost predicate Picked(own: Sized, list: seq<Candidate>, n: nat, c: Candidate)
    requires n <= |list|
  {
    0 <= c.rank < n && c == Candidate(list[c.rank].path, c.rank, Total(own, list[c.rank].path).logical)
  }

  /** The stable sort by total: larger totals first, equal ones in their previous order. */
  method SortByTotal(own: Sized, totals: Sized, list: seq<Candidate>, n: nat) returns (order: seq<Candidate>)
    requires n <= |list| && totals.Keys == own.Keys && forall d :: d in own ==> totals[d] == Total(own, d)
    requires forall i :: 0 <= i < |list| ==> list[i].path in own
    ensures Ordered(order) && forall c :: c in order <==> Picked(own, list, n, c)
    ensures |order| == n
  {
    order := [];
    for i := 0 to n
      invariant Ordered(order) && |order| == i && forall c :: c in order <==> Picked(own, list, i, c)
    {
      order := Place(order, Candidate(list[i].path, i, totals[list[i].path].logical));
    }
  }

  /** The report: the first candidates by own size, each with the total of its subtree, ordered by
      that total. */
  method Analyze(own: Sized, root: Path, rank: Path -> int)
    returns (report: seq<Entry>, ghost list: seq<Candidate>, ghost order: seq<Candidate>)
    requires Walked(own, root)
    requires forall p, q :: p in own && q in own && rank(p) == rank(q) ==> p == q
    ensures Ordered(list) && forall c :: c in list <==> IsCandidate(own, root, rank, c)
    ensures exists k :: Shortest(list, k) && |report| == Reported(k, |list|)
    ensures |report| == |order| <= |list|
    ensures Ordered(order) && forall c :: c in order <==> Picked(own, list, |report|, c)
    ensures forall i :: 0 <= i < |report| ==> report[i] == Entry(order[i].path, Total(own, order[i].path))
  {
    var totals := SubtreeTotals(own, root);
    var candidates, total := Collect(own, root, rank);
    report, list, order := [], candidates, [];
    assert forall i :: 0 <= i < |list| ==> list[i] in list;
    if total == 0 {
      NothingHeld(list);
      return;
    }
    var cutoff := Cutoff(candidates, total);
    var sorted := SortByTotal(own, totals, candidates, cutoff);
    order := sorted;
    while |report| < cutoff
      invariant |report| <= cutoff
      invariant forall i :: 0 <= i < |report| ==> report[i] == Entry(order[i].path, Total(own, order[i].path))
    {
      var c := sorted[|report|];
      assert c in order;
      report := report + [Entry(c.path, totals[c.path])];
    }
  }

  lemma NothingHeld(list: seq<Candidate>)
    requires forall i :: 0 <= i < |list| ==> 0 < list[i].logical
    requires Space(list) == 0
    ensures list == [] && Shortest(list, 0) && Reported(0, |list|) == 0
  {
    if list != [] {
      SpaceGrows(list, |list| - 1);
    }
  }

  // -------------------------------------------------- no smaller choice does better

  /** How many, and how much space, a choice among the candidates takes. */
  function Count(mask: seq<bool>): nat {
    if mask == [] then 0 else Count(mask[..|mask| - 1]) + if mask[|mask| - 1] then 1 else 0
  }

  function ChosenSpace(list: seq<Candidate>, mask: seq<bool>): int
    requires |mask| == |list|
  {
    if mask == [] then 0
    else ChosenSpace(list[..|list| - 1], mask[..|mask| - 1]) + if mask[|mask| - 1] then list[|list| - 1].logical else 0
  }

  lemma {:induction false} CountBound(mask: seq<bool>)
    ensures Count(mask) <= |mask|
  {
    if mask != [] {
      CountBound(mask[..|mask| - 1]);
    }
  }

  lemma {:induction false} LargestFirst(list: seq<Candidate>, mask: seq<bool>)
    requires Ordered(list) && |mask| == |list|
    ensures Count(mask) <= |list| && ChosenSpace(list, mask) <= Space(list[..Count(mask)])
    decreases |list|
  {
    CountBound(mask);
    if list != [] {
      var last := |list| - 1;
      LargestFirst(list[..last], mask[..last]);
      CountBound(mask[..last]);
      var n := Count(mask[..last]);
      assert list[..last][..n] == list[..n] == list[..n + 1][..n];
      assert list[n].logical >= list[last].logical;
    }
  }

  /** The reported beginning reaches the threshold with as few directories as any choice can. */
  lemma FewestDirectories(list: seq<Candidate>, k: nat, mask: seq<bool>)
    requires Ordered(list) && Shortest(list, k) && |mask| == |list|
    requires Clamp(ChosenSpace(list, mask)) >= Threshold(list)
    ensures k <= Count(mask)
  {
    LargestFirst(list, mask);
  }
}
