/**
 The revision store of one server: recording inside a transaction, anchoring, pruning by
 chains and the walk that reads a revision back.
 */
module HistoryStore {
  import opened Common
  import opened HistoryTable

  type uint64 = u: int | 0 <= u < 0x1_0000_0000_0000_0000

  datatype Config = Config(
    zstdLevel: int, anchorInterval: uint64, keepChains: uint64,
    perFileBudget: uint64, perServerBudget: uint64)

  /** The row data fetched for one step of the walk. */
  datatype Step = Step(id: int, base: Option<int>, payload: Bytes, hash: string)

  function OrDefault(value: uint64, fallback: uint64): (r: uint64)
    ensures r in {value, fallback} && (fallback <= 1 ==> value <= r && fallback <= r)
  {
    if value == 0 then fallback else value
  }

  /** Go's conversion of a uint64 to an int64. */
  function ToInt64(u: uint64): (r: int)
    ensures -MAX_INT64 - 1 <= r <= MAX_INT64 && (u - r) % 0x1_0000_0000_0000_0000 == 0
  {
    if u <= MAX_INT64 then u else u - 0x1_0000_0000_0000_0000
  }

  function Latest(t: Table, fileId: int): (r: Option<int>)
    ensures r.Some? ==> r.value in t && t[r.value].fileId == fileId
    ensures r.Some? ==> forall i :: i in t && t[i].fileId == fileId ==> i <= r.value
    ensures r.None? ==> forall i :: i in t ==> t[i].fileId != fileId
  {
    var rows := FileRows(t, fileId);
    if rows == {} then
      assert forall i :: i in t ==> i !in rows;
      None
    else
      assert forall i :: i in t && t[i].fileId == fileId ==> i in rows;
      Some(MaxOf(rows))
  }

  function FileIdOf(files: map<int, string>, path: string): (r: Option<int>)
    ensures r.Some? ==> r.value in files && files[r.value] == path
    ensures r.None? ==> forall f :: f in files ==> files[f] != path
  {
    var ids := set f | f in files && files[f] == path;
    if ids == {} then
      assert forall f :: f in files && files[f] == path ==> f in ids;
      None
    else Some(MaxOf(ids))
  }

  /** The file's newest row holds `after`; nothing recorded earlier changed; the only other row
      that may be new holds what the file contained before its first recorded change. */
  ghost predicate NewRevision(t: Table, recorded: Contents, u: Table, recorded': Contents,
                              fileId: int, before: Bytes, after: Bytes, id: int)
  {
    && (forall i :: i in t && i in recorded ==> i in u && u[i] == t[i] && i in recorded' && recorded'[i] == recorded[i])
    && id !in t && id in recorded' && recorded'[id] == after
    && Latest(u, fileId) == Some(id)
    && (forall i :: i in u && i !in t ==>
         u[i].fileId == fileId && i in recorded' && (i == id || (recorded'[i] == before && Latest(t, fileId) == None)))
  }

  /** Row `i` was written together with `id` and holds, as a snapshot, what the file contained before. */
  ghost predicate IsPrior(t: Table, u: Table, recorded': Contents, fileId: int, before: Bytes, id: int, i: int) {
    && i in u && i !in t && i < id && i in recorded'
    && u[i].fileId == fileId && u[i].base == None && u[i].chainId == i && recorded'[i] == before
    && u[i].user == "" && id in u && u[i].created == u[id].created - 1
  }

  /** A first change has stored both contents, in one chain exactly when the second one is a delta. */
  ghost predicate StoredBoth(t: Table, u: Table, recorded': Contents, fileId: int, before: Bytes, id: int, delta: bool)
  {
    exists i :: IsPrior(t, u, recorded', fileId, before, id, i) && id in u
      && u[id].chainId == (if delta then i else id) && ChainsOf(u, fileId) == {i, u[id].chainId}
  }

  /** The content before the first change has been stored. */
  ghost predicate PriorKept(t: Table, u: Table, recorded': Contents, fileId: int, before: Bytes, id: int) {
    exists i :: IsPrior(t, u, recorded', fileId, before, id, i)
  }

  /** Whether the content before the first change is still there after the prunes. */
  ghost predicate PriorOutcome(t: Table, u: Table, recorded': Contents, fileId: int, before: Bytes, id: int,
                               cfg: Config, delta: bool)
  {
    var kept, keep := PriorKept(t, u, recorded', fileId, before, id), OrDefault(cfg.keepChains, 1);
    && (delta ==> kept)
    && (keep >= 2 && cfg.perServerBudget == 0 ==> kept)
    && (!delta && keep == 1 ==> !kept)
  }

  /** One row with the given content was added to a file under the next id. */
  ghost predicate Added(t: Table, recorded: Contents, u: Table, recorded': Contents, id: int, fileId: int,
                        content: Bytes)
  {
    && id == NextId(t.Keys)
    && id in u && u == t[id := u[id]]
    && u[id].fileId == fileId
    && recorded' == recorded[id := content]
  }

  ghost predicate KeepsBound(t: Table, u: Table, n: nat) {
    ChainsAtMost(t, n) ==> ChainsAtMost(u, n)
  }

  lemma LatestAfterAdd(t: Table, r: Contents, u: Table, r': Contents, id: int, fileId: int, content: Bytes)
    requires Added(t, r, u, r', id, fileId, content)
    ensures Latest(u, fileId) == Some(id)
  {
  }

  lemma AddedIsNew(t: Table, r: Contents, u: Table, r': Contents, fileId: int, before: Bytes, after: Bytes, id: int)
    requires Added(t, r, u, r', id, fileId, after) && t.Keys == r.Keys
    ensures NewRevision(t, r, u, r', fileId, before, after, id)
  {
    LatestAfterAdd(t, r, u, r', id, fileId, after);
  }

  lemma AddedTwiceIsNew(t: Table, r: Contents, u: Table, r1: Contents, v: Table, r2: Contents,
                        fileId: int, before: Bytes, after: Bytes, base: int, id: int)
    requires Added(t, r, u, r1, base, fileId, before) && Added(u, r1, v, r2, id, fileId, after)
    requires t.Keys == r.Keys && Latest(t, fileId) == None
    ensures NewRevision(t, r, v, r2, fileId, before, after, id)
  {
    LatestAfterAdd(u, r1, v, r2, id, fileId, after);
  }

  lemma BothStored(t: Table, r: Contents, u: Table, r1: Contents, v: Table, r2: Contents, fileId: int,
                   before: Bytes, after: Bytes, base: int, id: int, delta: bool)
    requires Added(t, r, u, r1, base, fileId, before) && Added(u, r1, v, r2, id, fileId, after)
    requires Linked(v) && Latest(t, fileId) == None && u[base].base == None && u[base].chainId == base
    requires v[id].base == if delta then Some(base) else None
    requires u[base].user == "" && u[base].created == v[id].created - 1
    ensures StoredBoth(t, v, r2, fileId, before, id, delta)
  {
    assert RowLinked(v, id) && RowLinked(v, base);
    assert IsPrior(t, v, r2, fileId, before, id, base);
    assert v[base].fileId == fileId && v[id].fileId == fileId;
    assert ChainsOf(v, fileId) == {base, v[id].chainId};
  }

  lemma FirstChain(t: Table, r: Contents, u: Table, r': Contents, id: int, fileId: int, content: Bytes)
    requires Linked(t) && Added(t, r, u, r', id, fileId, content) && u[id].chainId == id
    ensures |ChainRows(u, fileId, id)| == 1
  {
    FreshChainIsEmpty(t, fileId);
    AddChainLengths(t, id, u[id], fileId, id);
  }

  /** A delta that saves more than a tenth. */
  predicate PrefersDelta(z: Codec, base: Bytes, content: Bytes, level: int) {
    var whole, delta := z.encodeSnapshot(content, level), z.EncodeDelta(base, content, level);
    whole.Some? && delta.Some? && 10 * |delta.value| < 9 * |whole.value|
  }

  /**
   When a recorded change cannot be read back: the newest row is the last one the walk can reach,
   the anchor interval lets its chain grow further, and a delta is worth storing.
   */
  ghost predicate TooDeep(z: Codec, t: Table, recorded: Contents, fileId: int, after: Bytes, cfg: Config)
    requires Linked(t) && t.Keys == recorded.Keys
  {
    var base := BaseFor(z, t, recorded, fileId, after, cfg);
    base.Some? && Depth(t, base.value) == WALK_LIMIT
  }

  /** What a new revision is stored against: the newest row, as long as the anchor interval lets its
      chain grow, the walk reaches it and a delta is worth storing. */
  ghost function BaseFor(z: Codec, t: Table, recorded: Contents, fileId: int, after: Bytes, cfg: Config): Option<int>
    requires Linked(t) && t.Keys == recorded.Keys
  {
    var latest := Latest(t, fileId);
    if latest.Some? && Depth(t, latest.value) <= WALK_LIMIT
      && |ChainRows(t, fileId, t[latest.value].chainId)| < ToInt64(OrDefault(cfg.anchorInterval, 1))
      && PrefersDelta(z, recorded[latest.value], after, cfg.zstdLevel)
    then latest else None
  }

  lemma AddKeepsBound(t: Table, u: Table, id: int, row: Revision, length: nat)
    requires id !in t && u == t[id := row] && |ChainRows(t, row.fileId, row.chainId)| == length
    ensures forall n: nat :: length < n ==> KeepsBound(t, u, n)
  {
    forall n: nat | length < n ensures KeepsBound(t, u, n) {
      if ChainsAtMost(t, n) {
        AddKeepsChainsAtMost(t, id, row, n);
      }
    }
  }

  // ------------------------------------------------------- server-wide pruning

  /** Chains of files that would keep another chain, other than the protected one. */
  function Droppable(t: Table, protectedFile: int, protectedChain: Option<int>): set<int> {
    set i | i in t
          && |ChainsOf(t, t[i].fileId)| > 1
          && !(protectedChain.Some? && t[i].fileId == protectedFile && t[i].chainId == protectedChain.value)
      :: t[i].chainId
  }

  function CreatedTimes(t: Table, chainId: int): set<int> {
    set i | i in t && t[i].chainId == chainId :: -t[i].created
  }

  /** MIN(created) over the rows of a chain. */
  function FirstCreated(t: Table, chainId: int): int {
    if CreatedTimes(t, chainId) == {} then 0 else -MaxOf(CreatedTimes(t, chainId))
  }

  /** It is the creation time of the earliest row of the chain. */
  lemma FirstCreatedIsLeast(t: Table, i: int)
    requires i in t
    ensures FirstCreated(t, t[i].chainId) <= t[i].created
    ensures exists j :: j in t && t[j].chainId == t[i].chainId && t[j].created == FirstCreated(t, t[i].chainId)
  {
    var times := CreatedTimes(t, t[i].chainId);
    assert -t[i].created in times;
    var j :| j in t && t[j].chainId == t[i].chainId && -t[j].created == MaxOf(times);
  }

  predicate Older(t: Table, c: int, d: int) {
    FirstCreated(t, c) < FirstCreated(t, d) || (FirstCreated(t, c) == FirstCreated(t, d) && c <= d)
  }

  /** ORDER BY MIN(created), chain_id LIMIT 1. */
  function Oldest(t: Table, chains: set<int>): (c: int)
    requires chains != {}
    ensures c in chains
    ensures forall d :: d in chains ==> Older(t, c, d)
    decreases |chains|
  {
    var m := MaxOf(chains);
    var rest := chains - {m};
    if rest == {} then
      assert forall d :: d in chains ==> d == m || d in rest;
      m
    else
      var c := Oldest(t, rest);
      assert forall d :: d in chains ==> d == m || d in rest;
      if Older(t, m, c) then m else c
  }

  /** No file that had revisions is left without any. */
  ghost predicate NoFileEmptied(t: Table, u: Table) {
    forall f {:trigger ChainsOf(u, f)} :: ChainsOf(t, f) != {} ==> ChainsOf(u, f) != {}
  }

  ghost predicate ChainKept(t: Table, u: Table, fileId: int, chainId: Option<int>) {
    chainId.Some? ==> ChainRows(u, fileId, chainId.value) == ChainRows(t, fileId, chainId.value)
  }

  /** Dropping one droppable chain empties no file and leaves the protected chain alone. */
  lemma DropOneDroppable(t: Table, pf: int, pc: Option<int>, c: int)
    requires Linked(t) && c in Droppable(t, pf, pc)
    ensures c in t
    ensures var u := DropChain(t, t[c].fileId, c);
      NoFileEmptied(t, u) && ChainKept(t, u, pf, pc) && |u| < |t|
  {
    var i :| i in t && t[i].chainId == c && |ChainsOf(t, t[i].fileId)| > 1
             && !(pc.Some? && t[i].fileId == pf && c == pc.value);
    assert c in ChainsOf(t, t[i].fileId);
    ChainOwner(t, t[i].fileId, c);
    var f0 := t[c].fileId;
    var u := DropChain(t, f0, c);
    forall f | ChainsOf(t, f) != {} ensures ChainsOf(u, f) != {} {
      DropChainChains(t, f0, c, f);
      if f == f0 && ChainsOf(u, f) == {} {
        SubsetCard(ChainsOf(t, f), {c});
      }
    }
    assert c !in u;
    SubsetCard(u.Keys, t.Keys);
  }

  /** Some whole chains went, but no file lost its last one and the protected chain stayed. */
  ghost predicate Pruned(t: Table, recorded: Contents, u: Table, recorded': Contents, pf: int, pc: Option<int>) {
    && WholeChainsDropped(t, u)
    && recorded' == Restrict(recorded, u.Keys)
    && NoFileEmptied(t, u)
    && ChainKept(t, u, pf, pc)
  }

  lemma PrunedComposes(t: Table, r: Contents, u: Table, r1: Contents, v: Table, r2: Contents, pf: int, pc: Option<int>)
    requires Pruned(t, r, u, r1, pf, pc) && Pruned(u, r1, v, r2, pf, pc)
    ensures Pruned(t, r, v, r2, pf, pc)
  {
    DropComposes(t, u, v);
    forall f | ChainsOf(t, f) != {} ensures ChainsOf(v, f) != {} {
      assert ChainsOf(u, f) != {};
    }
    assert r2 == Restrict(r, v.Keys);
  }

  /** Within the budget, or nothing is left to drop. */
  ghost predicate Satisfied(t: Table, pf: int, pc: Option<int>, budget: nat) {
    PayloadBytes(t, t.Keys) <= budget || Droppable(t, pf, pc) == {}
  }

  /** `t` was over budget and `u` is without its oldest droppable chain. */
  ghost predicate JustDropped(t: Table, u: Table, pf: int, pc: Option<int>, budget: nat) {
    && PayloadBytes(t, t.Keys) > budget && Droppable(t, pf, pc) != {}
    && var c := Oldest(t, Droppable(t, pf, pc));
       c in t && u == DropChain(t, t[c].fileId, c)
  }

  /** Nothing is dropped within budget: what was dropped last was dropped from a table over it. */
  ghost predicate OnlyAsNeeded(t: Table, u: Table, pf: int, pc: Option<int>, budget: nat) {
    u == t || exists last :: WholeChainsDropped(t, last) && JustDropped(last, u, pf, pc, budget)
  }

  lemma NeededStep(t: Table, last: Table, u: Table, pf: int, pc: Option<int>, budget: nat)
    requires WholeChainsDropped(t, last) && JustDropped(last, u, pf, pc, budget)
    ensures OnlyAsNeeded(t, u, pf, pc, budget)
  {
  }

  /** The chains of a file that may go. */
  function Unprotected(t: Table, fileId: int, protect: Option<int>): set<int> {
    set c | c in ChainsOf(t, fileId) && protect != Some(c)
  }

  lemma DropShrinks(t: Table, fileId: int, chain: int)
    requires chain in ChainsOf(t, fileId)
    ensures |DropChain(t, fileId, chain)| < |t|
  {
    var u := DropChain(t, fileId, chain);
    var i :| i in t && t[i].fileId == fileId && t[i].chainId == chain;
    assert i in ChainRows(t, fileId, chain) && i !in u;
    SubsetCard(u.Keys, t.Keys);
  }

  lemma NewestOfFew(s: set<int>, k: nat)
    requires |s| < k || s == {}
    ensures Newest(s, k) == s
  {
    forall c | c in s ensures |Above(s, c)| < k {
      SubsetCard(Above(s, c), s);
    }
  }

  lemma OldChainsPruned(t: Table, u: Table, fileId: int, keep: nat, threshold: int)
    requires 0 < keep <= |ChainsOf(t, fileId)|
    requires threshold == Descending(ChainsOf(t, fileId), keep)[keep - 1]
    requires u == map i | i in t && !(t[i].fileId == fileId && t[i].chainId < threshold) :: t[i]
    ensures WholeChainsDropped(t, u)
    ensures ChainsOf(u, fileId) == Newest(ChainsOf(t, fileId), keep)
  {
    var all := ChainsOf(t, fileId);
    forall c | c in all ensures c in ChainsOf(u, fileId) <==> c in Newest(all, keep) {
      NewestByThreshold(all, keep, c);
      var i :| i in t && t[i].fileId == fileId && t[i].chainId == c;
      if c >= threshold {
        assert i in u;
      }
    }
  }

  /** What is left when the oldest droppable chain goes. */
  ghost function WithoutOldest(t: Table, pf: int, pc: Option<int>): (u: Table)
    requires Linked(t) && Droppable(t, pf, pc) != {}
    ensures Linked(u) && |u| < |t|
  {
    var c := Oldest(t, Droppable(t, pf, pc));
    DropOneDroppable(t, pf, pc, c);
    DropKeepsLinked(t, DropChain(t, t[c].fileId, c));
    DropChain(t, t[c].fileId, c)
  }

  /**
   When server-wide pruning stops too early: dropping oldest chains meets, before the table is
   within budget, one that holds no bytes while something droppable remains behind it.
   */
  ghost predicate Stalls(t: Table, pf: int, pc: Option<int>, budget: nat)
    requires Linked(t)
    decreases |t|
  {
    && PayloadBytes(t, t.Keys) > budget && Droppable(t, pf, pc) != {}
    && var u := WithoutOldest(t, pf, pc);
       if PayloadBytes(u, u.Keys) == PayloadBytes(t, t.Keys) then Droppable(u, pf, pc) != {}
       else Stalls(u, pf, pc, budget)
  }

  /** Dropping a chain that holds something leaves the question open; dropping one that holds
      nothing decides it. */
  lemma StallStep(t: Table, pf: int, pc: Option<int>, budget: nat)
    requires Linked(t) && Droppable(t, pf, pc) != {} && PayloadBytes(t, t.Keys) > budget
    ensures var c, u := Oldest(t, Droppable(t, pf, pc)), WithoutOldest(t, pf, pc);
      c in t && u == DropChain(t, t[c].fileId, c) &&
      if PayloadBytes(t, ChainRows(t, t[c].fileId, c)) == 0 then
        Satisfied(u, pf, pc, budget) <==> !Stalls(t, pf, pc, budget)
      else Stalls(u, pf, pc, budget) <==> Stalls(t, pf, pc, budget)
  {
    var c := Oldest(t, Droppable(t, pf, pc));
    DropOneDroppable(t, pf, pc, c);
    DropChainFrees(t, t[c].fileId, c);
  }

  lemma PayloadOfOne(t: Table, i: int)
    requires i in t
    ensures PayloadBytes(t, {i}) == |t[i].payload|
  {
    assert MaxOf({i}) == i;
    assert {i} - {i} == {};
  }

  /** Every row is a snapshot of file 1, created in the order of the ids. */
  ghost predicate AllAlone(t: Table) {
    forall i :: i in t ==>
      0 < i && t[i].fileId == 1 && t[i].chainId == i && t[i].base == None && t[i].created == i
  }

  lemma AloneIsLinked(t: Table)
    requires AllAlone(t)
    ensures Linked(t)
  {
    forall i | i in t ensures RowLinked(t, i) {
    }
    forall i, j | i in t && j in t ensures InOrder(t, i, j) {
    }
  }

  lemma AloneIsDroppable(t: Table, pc: Option<int>, i: int, j: int)
    requires AllAlone(t) && i in t && j in t && i != j
    ensures Droppable(t, 1, pc) == set k | k in t && pc != Some(k)
  {
    assert ChainsOf(t, 1) == t.Keys by {
      forall k | k in t ensures k in ChainsOf(t, 1) {
        assert t[k].fileId == 1 && t[k].chainId == k;
      }
    }
    SubsetCard({i, j}, ChainsOf(t, 1));
    forall k | k in t && pc != Some(k) ensures k in Droppable(t, 1, pc) {
      assert t[k].fileId == 1 && t[k].chainId == k;
    }
  }

  lemma AloneOldest(t: Table, chains: set<int>, m: int)
    requires AllAlone(t) && chains <= t.Keys && m in chains && forall i :: i in chains ==> m <= i
    ensures Oldest(t, chains) == m
  {
    forall c | c in t ensures FirstCreated(t, c) == c {
      assert t[c].chainId == c && t[c].created == c;
      assert CreatedTimes(t, c) == {-c};
    }
    assert Older(t, Oldest(t, chains), m);
  }

  lemma DropAlone(t: Table, m: int)
    requires AllAlone(t) && m in t && t[m].payload == []
    ensures PayloadBytes(t, ChainRows(t, 1, m)) == 0
    ensures var u := DropChain(t, 1, m);
      AllAlone(u) && u.Keys == t.Keys - {m} && PayloadBytes(u, u.Keys) == PayloadBytes(t, t.Keys)
  {
    forall k | k in t ensures k in ChainRows(t, 1, m) <==> k == m {
      assert t[k].chainId == k;
    }
    assert ChainRows(t, 1, m) == {m};
    PayloadOfOne(t, m);
    DropChainFrees(t, 1, m);
  }

  /** An empty oldest chain stalls the pruning of a table over budget that has two more chains,
      whichever other chain is protected. */
  lemma EmptyOldestStalls(t: Table, pc: Option<int>, m: int, i: int, j: int, budget: nat)
    requires AllAlone(t) && m in t && i in t && j in t && m < i < j && pc != Some(m)
    requires (forall k :: k in t ==> m <= k) && t[m].payload == [] && PayloadBytes(t, t.Keys) > budget
    ensures Linked(t) && Stalls(t, 1, pc, budget) && !Satisfied(DropChain(t, 1, m), 1, pc, budget)
  {
    AloneIsLinked(t);
    AloneIsDroppable(t, pc, i, j);
    AloneOldest(t, Droppable(t, 1, pc), m);
    DropAlone(t, m);
    var u := DropChain(t, 1, m);
    AloneIsDroppable(u, pc, i, j);
    assert (if pc == Some(i) then j else i) in Droppable(u, 1, pc);
    StallStep(t, 1, pc, budget);
  }

  /** As long as every payload holds something, pruning never stops early. */
  lemma {:induction false} FullPayloadsNeverStall(t: Table, pf: int, pc: Option<int>, budget: nat)
    requires Linked(t) && forall i :: i in t ==> t[i].payload != []
    ensures !Stalls(t, pf, pc, budget)
    decreases |t|
  {
    if Droppable(t, pf, pc) != {} {
      var c := Oldest(t, Droppable(t, pf, pc));
      DropOneDroppable(t, pf, pc, c);
      DropChainFrees(t, t[c].fileId, c);
      if PayloadBytes(t, ChainRows(t, t[c].fileId, c)) == 0 {
        DroppedNothing(t, pf, pc);
      }
      FullPayloadsNeverStall(WithoutOldest(t, pf, pc), pf, pc, budget);
    }
  }

  /** A dropped chain that frees nothing had an empty payload. */
  lemma DroppedNothing(t: Table, pf: int, pc: Option<int>)
    requires Linked(t) && Droppable(t, pf, pc) != {}
    requires var c := Oldest(t, Droppable(t, pf, pc)); c in t && PayloadBytes(t, ChainRows(t, t[c].fileId, c)) == 0
    ensures exists i :: i in t && t[i].payload == []
  {
    var c := Oldest(t, Droppable(t, pf, pc));
    var i :| i in t && t[i].chainId == c;
    assert RowLinked(t, i);
    assert c in ChainRows(t, t[c].fileId, c);
    ZeroBytesMeansEmptyPayload(t, ChainRows(t, t[c].fileId, c));
  }

  // ------------------------------------------------------------------ the walk

  /** The ids the walk visits, newest first. */
  ghost predicate WalkPath(t: Table, path: seq<int>) {
    && (forall k :: 0 <= k < |path| ==> path[k] in t)
    && (forall k :: 0 <= k < |path| - 1 ==> t[path[k]].base == Some(path[k + 1]))
  }

  /** A row that cannot be decoded spoils every row above it. */
  lemma {:induction false} ErrorSpreads(z: Codec, t: Table, path: seq<int>, k: nat)
    requires Linked(t) && WalkPath(t, path) && k < |path|
    requires Rebuild(z, t, path[k]).Err?
    ensures Rebuild(z, t, path[0]) == Rebuild(z, t, path[k])
    decreases k
  {
    if k > 0 {
      assert t[path[k - 1]].base == Some(path[k]);
      assert RowLinked(t, path[k - 1]);
      ErrorSpreads(z, t, path, k - 1);
    }
  }

  method ReverseChain(chain: array<Step>)
    modifies chain
    ensures forall k :: 0 <= k < chain.Length ==> chain[k] == old(chain[chain.Length - 1 - k])
  {
    var i, j := 0, chain.Length - 1;
    while i < j
      invariant 0 <= i <= j + 2 && i + j == chain.Length - 1
      invariant forall k :: 0 <= k < i && k < chain.Length ==> chain[k] == old(chain[chain.Length - 1 - k])
      invariant forall k :: 0 <= k && j < k < chain.Length ==> chain[k] == old(chain[chain.Length - 1 - k])
      invariant forall k :: i <= k <= j ==> chain[k] == old(chain[k])
    {
      chain[i], chain[j] := chain[j], chain[i];
      i, j := i + 1, j - 1;
    }
  }

  function StepOf(t: Table, id: int): Step
    requires id in t
  {
    Step(id, t[id].base, t[id].payload, t[id].hash)
  }

  ghost predicate Fetched(t: Table, chain: seq<Step>, path: seq<int>) {
    && WalkPath(t, path)
    && |chain| == |path|
    && forall k :: 0 <= k < |path| ==> chain[k] == StepOf(t, path[k])
  }

  /** One more row is fetched; what is left of the walk shrinks by one. */
  lemma FetchOne(t: Table, chain: seq<Step>, path: seq<int>, at: int)
    requires Linked(t) && Fetched(t, chain, path) && at in t
    requires path != [] ==> t[path[|path| - 1]].base == Some(at)
    ensures Fetched(t, chain + [StepOf(t, at)], path + [at])
    ensures t[at].base.None? ==> Depth(t, at) == 1
    ensures t[at].base.Some? ==> t[at].base.value in t && Depth(t, at) == 1 + Depth(t, t[at].base.value)
  {
    assert RowLinked(t, at);
  }

  method CollectChain(t: Table, id: int) returns (r: Result<seq<Step>, Error>, ghost path: seq<int>)
    requires Linked(t)
    ensures r.Err? ==> r.error == if id in t then NoAnchor else NotFound
    ensures r.Err? ==> id !in t || Depth(t, id) > WALK_LIMIT
    ensures r.Ok? ==> id in t && Depth(t, id) <= WALK_LIMIT
    ensures r.Ok? ==> Fetched(t, r.value, path) && path != [] && path[0] == id
    ensures r.Ok? ==> t[path[|path| - 1]].base == None
  {
    var chain: seq<Step> := [];
    path := [];
    var current := Some(id);
    while current.Some? && |chain| < WALK_LIMIT
      invariant Fetched(t, chain, path) && |path| <= WALK_LIMIT
      invariant path == [] ==> current == Some(id)
      invariant path != [] ==> path[0] == id && t[path[|path| - 1]].base == current
      invariant path != [] && current.Some? ==>
        current.value in t && Depth(t, id) == |path| + Depth(t, current.value)
      invariant current.None? ==> path != [] && Depth(t, id) == |path|
      decreases WALK_LIMIT - |chain|
    {
      var at := current.value;
      if at !in t {
        return Err(NotFound), path;
      }
      FetchOne(t, chain, path, at);
      chain := chain + [StepOf(t, at)];
      path := path + [at];
      current := t[at].base;
    }
    if |chain| == 0 || chain[|chain| - 1].base.Some? {
      return Err(NoAnchor), path;
    }
    r := Ok(chain);
  }

  /** Reading a revision back gives what `Reconstruction` says: the recorded bytes, or why not. */
  method Reconstruct(z: Codec, t: Table, id: int) returns (r: Result<Bytes, Error>)
    requires Linked(t)
    ensures r == Reconstruction(z, t, id)
  {
    var collected, path := CollectChain(t, id);
    if collected.Err? {
      return Err(collected.error);
    }
    var steps := collected.value;
    var n := |steps|;
    var chain := new Step[n](k requires 0 <= k < n => steps[k]);
    ReverseChain(chain);
    assert forall k :: 0 <= k < n ==> chain[k] == StepOf(t, path[n - 1 - k]);
    r := Checked(z, z.decodeSnapshot(chain[0].payload), chain[0].hash);
    var i := 1;
    while i < n && r.Ok?
      invariant 1 <= i <= n
      invariant r == Rebuild(z, t, path[n - i])
    {
      assert t[path[n - 1 - i]].base == Some(path[n - i]);
      r := Checked(z, z.decodeDelta(chain[i].payload, r.value), chain[i].hash);
      i := i + 1;
    }
    if r.Err? {
      ErrorSpreads(z, t, path, n - i);
    }
  }

  // ------------------------------------------------------- what recording does

  /** What one recorded change does to the table: survivors keep their row and content, chains
      go whole, no file loses its last revision, and at most the prior content is new besides `id`. */
  ghost predicate Recorded(t: Table, recorded: Contents, u: Table, recorded': Contents, id: int, before: Bytes,
                           first: bool)
  {
    && id in u && id !in t && recorded'.Keys == u.Keys && recorded.Keys == t.Keys
    && (forall i :: i in u && i in t ==> u[i] == t[i] && recorded'[i] == recorded[i])
    && (forall i :: i in u && i !in t ==> u[i].fileId == u[id].fileId && (i == id || (first && recorded'[i] == before)))
    && (forall i, j :: i in t && j in t && SameChain(t, i, j) ==> (i in u <==> j in u))
    && NoFileEmptied(t, u)
  }

  lemma FileIdStable(fs: map<int, string>, gs: map<int, string>, path: string, f: int)
    requires f in gs && gs[f] == path
    requires f in fs ==> gs == fs
    requires f !in fs ==> gs == fs[f := path] && path !in fs.Values
    requires forall a, b :: a in gs && b in gs && gs[a] == gs[b] ==> a == b
    ensures f in fs ==> FileIdOf(fs, path) == Some(f)
    ensures f !in fs ==> FileIdOf(fs, path) == None
  {
  }

  /** The newest row is in the newest chain, so pruning to the newest chains keeps it. */
  lemma NewestPrunes(t: Table, r: Contents, u: Table, r': Contents, fileId: int, id: int, keep: nat)
    requires Linked(t) && Latest(t, fileId) == Some(id) && 0 < keep
    requires WholeChainsDropped(t, u) && r' == Restrict(r, u.Keys)
    requires ChainsOf(u, fileId) == Newest(ChainsOf(t, fileId), keep)
    requires forall i :: i in t && t[i].fileId != fileId ==> i in u
    ensures Pruned(t, r, u, r', fileId, Some(t[id].chainId))
    ensures |ChainsOf(u, fileId)| <= keep
  {
    var all, top := ChainsOf(t, fileId), t[id].chainId;
    NewestCount(all, keep);
    forall c | c in all ensures c <= top {
      var i :| i in t && t[i].fileId == fileId && t[i].chainId == c;
      assert InOrder(t, i, id);
    }
    assert top in all;
    assert Above(all, top) == {};
    assert top in ChainsOf(u, fileId);
    var j :| j in u && u[j].fileId == fileId && u[j].chainId == top;
    forall i | i in ChainRows(t, fileId, top) ensures i in ChainRows(u, fileId, top) {
      assert SameChain(t, i, j);
      assert u[i] == t[i];
    }
    forall i | i in ChainRows(u, fileId, top) ensures i in ChainRows(t, fileId, top) {
      assert u[i] == t[i];
    }
    forall f | ChainsOf(t, f) != {} ensures ChainsOf(u, f) != {} {
      if f != fileId {
        var c :| c in ChainsOf(t, f);
        var i :| i in t && t[i].fileId == f && t[i].chainId == c;
        assert u[i].chainId in ChainsOf(u, f);
      }
    }
    assert ChainRows(u, fileId, top) == ChainRows(t, fileId, top);
  }

  /** The content before the first change survives in the chain of the new row, or with a second
      chain to spare when no server budget interferes; with room for one chain only it goes. */
  lemma PriorSurvives(t: Table, t1: Table, r1: Contents, t2: Table, u: Table, ru: Contents,
                      fileId: int, before: Bytes, id: int, delta: bool, keep: nat)
    requires StoredBoth(t, t1, r1, fileId, before, id, delta) && 0 < keep && id in t1 && t1[id].fileId == fileId
    requires WholeChainsDropped(t1, t2) && ChainsOf(t2, fileId) == Newest(ChainsOf(t1, fileId), keep)
    requires WholeChainsDropped(t2, u) && Pruned(t1, r1, u, ru, fileId, Some(t1[id].chainId)) && t1.Keys == r1.Keys
    ensures delta ==> PriorKept(t, u, ru, fileId, before, id)
    ensures keep >= 2 && u == t2 ==> PriorKept(t, u, ru, fileId, before, id)
    ensures !delta && keep == 1 ==> !PriorKept(t, u, ru, fileId, before, id)
  {
    var i :| IsPrior(t, t1, r1, fileId, before, id, i) && id in t1
      && t1[id].chainId == (if delta then i else id) && ChainsOf(t1, fileId) == {i, t1[id].chainId};
    assert id in ChainRows(t1, fileId, t1[id].chainId);
    assert id in ChainRows(u, fileId, t1[id].chainId);
    if delta {
      assert i in ChainRows(t1, fileId, i);
      assert i in ChainRows(u, fileId, i);
      StillPrior(t, t1, r1, u, ru, fileId, before, id, i);
    } else if keep >= 2 {
      if u == t2 {
        SecondChainStays(t1, t2, fileId, id, i, keep);
        StillPrior(t, t1, r1, u, ru, fileId, before, id, i);
      }
    } else {
      NewestCount(ChainsOf(t1, fileId), keep);
      PriorGoes(t, t1, r1, t2, u, ru, fileId, before, id, i);
    }
  }

  lemma StillPrior(t: Table, t1: Table, r1: Contents, u: Table, ru: Contents,
                   fileId: int, before: Bytes, id: int, i: int)
    requires IsPrior(t, t1, r1, fileId, before, id, i) && i in u && id in u
    requires WholeChainsDropped(t1, u) && ru == Restrict(r1, u.Keys)
    ensures PriorKept(t, u, ru, fileId, before, id)
  {
    assert IsPrior(t, u, ru, fileId, before, id, i);
  }

  lemma SecondChainStays(t1: Table, t2: Table, fileId: int, id: int, i: int, keep: nat)
    requires i in t1 && t1[i].fileId == fileId && t1[i].chainId == i && i != id && 2 <= keep
    requires ChainsOf(t1, fileId) == {i, id} && WholeChainsDropped(t1, t2)
    requires ChainsOf(t2, fileId) == Newest(ChainsOf(t1, fileId), keep)
    ensures i in t2
  {
    var all := ChainsOf(t1, fileId);
    NewestCount(all, keep);
    SubsetCard(Newest(all, keep), all);
    assert i in ChainsOf(t2, fileId);
    var j :| j in t2 && t2[j].fileId == fileId && t2[j].chainId == i;
    assert SameChain(t1, i, j);
  }

  lemma PriorGoes(t: Table, t1: Table, r1: Contents, t2: Table, u: Table, ru: Contents,
                  fileId: int, before: Bytes, id: int, i: int)
    requires IsPrior(t, t1, r1, fileId, before, id, i) && i != id && id in u && u[id].fileId == fileId
    requires u[id].chainId == id && ChainsOf(t1, fileId) == {i, id} && |ChainsOf(t2, fileId)| == 1
    requires WholeChainsDropped(t1, t2) && WholeChainsDropped(t2, u)
    ensures !PriorKept(t, u, ru, fileId, before, id)
  {
    assert id in ChainsOf(t2, fileId);
    if k :| IsPrior(t, u, ru, fileId, before, id, k) {
      assert k in ChainsOf(t2, fileId);
      SubsetCard({id, k}, ChainsOf(t2, fileId));
    }
  }

  lemma ChainsShrink(t: Table, u: Table, fileId: int)
    requires WholeChainsDropped(t, u)
    ensures |ChainsOf(u, fileId)| <= |ChainsOf(t, fileId)|
  {
    forall c | c in ChainsOf(u, fileId) ensures c in ChainsOf(t, fileId) {
      var i :| i in u && u[i].fileId == fileId && u[i].chainId == c;
      assert i in t && t[i] == u[i];
    }
    SubsetCard(ChainsOf(u, fileId), ChainsOf(t, fileId));
  }

  lemma RecordSummary(t: Table, r: Contents, u: Table, r1: Contents, v: Table, r2: Contents,
                      fileId: int, before: Bytes, after: Bytes, id: int)
    requires t.Keys == r.Keys && u.Keys == r1.Keys && id in u
    requires NewRevision(t, r, u, r1, fileId, before, after, id)
    requires Pruned(u, r1, v, r2, fileId, Some(u[id].chainId))
    ensures Recorded(t, r, v, r2, id, before, Latest(t, fileId).None?)
    ensures id in v && r2[id] == after && v[id].fileId == fileId
  {
    assert id in ChainRows(u, fileId, u[id].chainId);
    assert id in ChainRows(v, fileId, u[id].chainId);
    forall i, j | i in t && j in t && SameChain(t, i, j) ensures i in v <==> j in v {
      assert SameChain(u, i, j);
    }
    forall f | ChainsOf(t, f) != {} ensures ChainsOf(v, f) != {} {
      var c :| c in ChainsOf(t, f);
      var i :| i in t && t[i].fileId == f && t[i].chainId == c;
      assert u[i].chainId in ChainsOf(u, f);
    }
  }

  // ----------------------------------------------------------------- the store

  class Store {
    const codec: Codec
    var files: map<int, string>
    var revisions: Table
    /** What each surviving id was recorded with. */
    ghost var recorded: Contents

    ghost predicate Valid()
      reads this
    {
      && codec.Lawful()
      && (forall f, g :: f in files && g in files && files[f] == files[g] ==> f == g)
      && (forall i :: i in revisions ==> revisions[i].fileId in files)
      && Linked(revisions)
      && Faithful(codec, revisions, recorded)
    }

    constructor (codec: Codec)
      requires codec.Lawful()
      ensures Valid() && this.codec == codec && files == map[] && revisions == map[]
    {
      this.codec := codec;
      files, revisions, recorded := map[], map[], map[];
    }

    method UpsertFile(path: string) returns (fileId: int)
      requires Valid()
      modifies this`files
      ensures Valid()
      ensures fileId in files && files[fileId] == path
      ensures fileId in old(files) ==> files == old(files)
      ensures fileId !in old(files) ==> files == old(files)[fileId := path] && path !in old(files.Values)
    {
      var found := FileIdOf(files, path);
      if found.Some? {
        return found.value;
      }
      fileId := NextId(files.Keys);
      files := files[fileId := path];
    }

    method InsertRow(row: Revision, ghost content: Bytes) returns (id: int)
      requires Valid() && row.fileId in files
      requires Addable(codec, revisions, recorded, row, content)
      modifies this`revisions, this`recorded
      ensures Valid()
      ensures id == NextId(old(revisions.Keys))
      ensures revisions == old(revisions)[id := row]
      ensures recorded == old(recorded)[id := content]
    {
      id := NextId(revisions.Keys);
      AddKeepsLinked(codec, revisions, recorded, row, content);
      AddKeepsFaithful(codec, revisions, recorded, row, content);
      revisions := revisions[id := row];
      recorded := recorded[id := content];
    }

    /** A snapshot starts a chain named after its own id. */
    method InsertEncodedSnapshot(fileId: int, user: string, content: Bytes, payload: Bytes, created: int)
      returns (id: int)
      requires Valid() && fileId in files
      requires codec.decodeSnapshot(payload) == Some(content)
      modifies this`revisions, this`recorded
      ensures Valid() && Added(old(revisions), old(recorded), revisions, recorded, id, fileId, content)
      ensures revisions[id].chainId == id && revisions[id].base == None && revisions[id].payload == payload
      ensures revisions[id].user == user && revisions[id].created == created
      ensures forall n: nat :: 1 <= n ==> KeepsBound(old(revisions), revisions, n)
    {
      var chain := NextId(revisions.Keys);
      var row := Revision(fileId, chain, |content|, user, None, payload, codec.hash(content), created);
      FreshChainIsEmpty(revisions, fileId);
      id := InsertRow(row, content);
      AddKeepsBound(old(revisions), revisions, id, row, 0);
    }

    method InsertSnapshot(fileId: int, user: string, content: Bytes, created: int, level: int)
      returns (r: Result<int, Error>)
      requires Valid() && fileId in files
      modifies this`revisions, this`recorded
      ensures Valid()
      ensures r.Err? ==> revisions == old(revisions) && recorded == old(recorded)
      ensures r == Err(EncodeFailed) || r.Ok?
      ensures r.Ok? <==> codec.encodeSnapshot(content, level).Some?
      ensures r.Ok? ==> Added(old(revisions), old(recorded), revisions, recorded, r.value, fileId, content)
      ensures r.Ok? ==> revisions[r.value].chainId == r.value && revisions[r.value].created == created
      ensures r.Ok? ==> revisions[r.value].base == None
      ensures r.Ok? ==> revisions[r.value].user == user && Depth(revisions, r.value) == 1
      ensures r.Ok? ==> forall n: nat :: 1 <= n ==> KeepsBound(old(revisions), revisions, n)
    {
      var payload := codec.encodeSnapshot(content, level);
      if payload.None? {
        return Err(EncodeFailed);
      }
      var id := InsertEncodedSnapshot(fileId, user, content, payload.value, created);
      AddedDepth(old(revisions), id, revisions[id]);
      r := Ok(id);
    }

    method InsertEncodedDelta(fileId: int, base: int, user: string, content: Bytes, payload: Bytes, created: int)
      returns (id: int)
      requires Valid() && fileId in files
      requires Latest(revisions, fileId) == Some(base)
      requires codec.decodeDelta(payload, recorded[base]) == Some(content)
      modifies this`revisions, this`recorded
      ensures Valid() && Added(old(revisions), old(recorded), revisions, recorded, id, fileId, content)
      ensures revisions[id].chainId == old(revisions)[base].chainId
      ensures revisions[id].base == Some(base) && revisions[id].payload == payload
      ensures revisions[id].user == user && revisions[id].created == created
      ensures forall n: nat :: |ChainRows(old(revisions), fileId, old(revisions)[base].chainId)| < n ==>
        KeepsBound(old(revisions), revisions, n)
    {
      var chainId := revisions[base].chainId;
      var row := Revision(fileId, chainId, |content|, user, Some(base), payload, codec.hash(content), created);
      ghost var length := |ChainRows(revisions, fileId, chainId)|;
      id := InsertRow(row, content);
      AddKeepsBound(old(revisions), revisions, id, row, length);
    }

    /** Stores a delta against the newest row when it saves more than a tenth, else a snapshot. */
    method InsertCompact(fileId: int, base: int, baseContent: Bytes, user: string, content: Bytes, created: int,
                         level: int)
      returns (r: Result<int, Error>)
      requires Valid() && fileId in files
      requires Latest(revisions, fileId) == Some(base)
      requires baseContent == recorded[base]
      modifies this`revisions, this`recorded
      ensures Valid()
      ensures r.Err? ==> revisions == old(revisions) && recorded == old(recorded)
      ensures r == Err(EncodeFailed) || r.Ok?
      ensures r.Ok? <==> codec.encodeSnapshot(content, level).Some?
      ensures r.Ok? ==> Added(old(revisions), old(recorded), revisions, recorded, r.value, fileId, content)
      ensures r.Ok? ==> revisions[r.value].created == created && revisions[r.value].user == user
      ensures r.Ok? ==> revisions[r.value].base in {None, Some(base)}
      ensures r.Ok? ==>
        var whole, delta := codec.encodeSnapshot(content, level), codec.EncodeDelta(baseContent, content, level);
        if PrefersDelta(codec, baseContent, content, level) then
          revisions[r.value].base == Some(base) && revisions[r.value].payload == delta.value
        else revisions[r.value].base == None && revisions[r.value].payload == whole.value
      ensures r.Ok? ==>
        var above := if PrefersDelta(codec, baseContent, content, level) then Depth(old(revisions), base) else 0;
        Depth(revisions, r.value) == 1 + above
      ensures r.Ok? ==> forall n: nat :: |ChainRows(old(revisions), fileId, old(revisions)[base].chainId)| < n ==>
        KeepsBound(old(revisions), revisions, n)
    {
      var snapshot := codec.encodeSnapshot(content, level);
      if snapshot.None? {
        return Err(EncodeFailed);
      }
      var delta := codec.EncodeDelta(baseContent, content, level);
      var id: int;
      if delta.None? || |delta.value| * 10 >= |snapshot.value| * 9 {
        id := InsertEncodedSnapshot(fileId, user, content, snapshot.value, created);
      } else {
        id := InsertEncodedDelta(fileId, base, user, content, delta.value, created);
      }
      AddedDepth(old(revisions), id, revisions[id]);
      r := Ok(id);
    }

    /** The first revisions of a file: what it held before, then what it holds now. */
    method InsertFirst(fileId: int, before: Bytes, after: Bytes, user: string, now: int, level: int)
      returns (r: Result<int, Error>)
      requires Valid() && fileId in files && Latest(revisions, fileId) == None
      modifies this`revisions, this`recorded
      ensures Valid()
      ensures r == Err(EncodeFailed) || r.Ok?
      ensures r.Err? ==> codec.encodeSnapshot(before, level).None? || codec.encodeSnapshot(after, level).None?
      ensures r.Ok? ==> NewRevision(old(revisions), old(recorded), revisions, recorded, fileId, before, after, r.value)
      ensures r.Ok? ==> Depth(revisions, r.value) <= 2
      ensures r.Ok? ==> revisions[r.value].user == user && revisions[r.value].created == now
      ensures r.Ok? ==> StoredBoth(old(revisions), revisions, recorded, fileId, before, r.value,
                                   PrefersDelta(codec, before, after, level))
      ensures r.Ok? ==> forall n: nat :: 2 <= n ==> KeepsBound(old(revisions), revisions, n)
    {
      r := InsertSnapshot(fileId, "", before, now - 1, level);
      if r.Err? {
        return;
      }
      ghost var middle, kept := revisions, recorded;
      var base := r.value;
      LatestAfterAdd(old(revisions), old(recorded), middle, kept, base, fileId, before);
      FirstChain(old(revisions), old(recorded), middle, kept, base, fileId, before);
      r := InsertCompact(fileId, base, before, user, after, now, level);
      if r.Ok? {
        AddedTwiceIsNew(old(revisions), old(recorded), middle, kept, revisions, recorded, fileId, before, after,
                        base, r.value);
        forall n: nat | 2 <= n ensures KeepsBound(old(revisions), revisions, n) {
          assert KeepsBound(old(revisions), middle, n) && KeepsBound(middle, revisions, n);
        }
        BothStored(old(revisions), old(recorded), middle, kept, revisions, recorded, fileId, before, after, base,
                   r.value, PrefersDelta(codec, before, after, level));
      }
    }

    predicate EncodingFails(before: Bytes, after: Bytes, cfg: Config) {
      codec.encodeSnapshot(before, cfg.zstdLevel).None? || codec.encodeSnapshot(after, cfg.zstdLevel).None?
    }

    /** The next revision of a file whose newest content differs from `after`. */
    method AppendRevision(fileId: int, before: Bytes, after: Bytes, user: string, cfg: Config, now: int)
      returns (r: Result<int, Error>)
      requires Valid() && fileId in files
      modifies this`revisions, this`recorded
      ensures Valid()
      ensures r == Err(EncodeFailed) || r.Ok?
      ensures r.Err? ==> EncodingFails(before, after, cfg)
      ensures r.Ok? ==> r.value in revisions
      ensures r.Ok? ==> revisions[r.value].user == user && revisions[r.value].created == now
      ensures r.Ok? ==>
        (Depth(revisions, r.value) > WALK_LIMIT <==> TooDeep(codec, old(revisions), old(recorded), fileId, after, cfg))
      ensures r.Ok? ==> NewRevision(old(revisions), old(recorded), revisions, recorded, fileId, before, after, r.value)
      ensures r.Ok? && Latest(old(revisions), fileId).Some? ==>
        revisions[r.value].base == BaseFor(codec, old(revisions), old(recorded), fileId, after, cfg)
      ensures r.Ok? && Latest(old(revisions), fileId) == None && |before| > 0 ==>
        StoredBoth(old(revisions), revisions, recorded, fileId, before, r.value,
                   PrefersDelta(codec, before, after, cfg.zstdLevel))
      ensures r.Ok? ==> forall n: nat :: 2 <= n && cfg.anchorInterval <= n ==> KeepsBound(old(revisions), revisions, n)
    {
      var latest := Latest(revisions, fileId);
      if latest.None? && |before| > 0 {
        r := InsertFirst(fileId, before, after, user, now, cfg.zstdLevel);
        return;
      }
      if latest.None? {
        r := InsertSnapshot(fileId, user, after, now, cfg.zstdLevel);
      } else {
        r := AppendTo(fileId, latest.value, after, user, cfg, now);
      }
      if r.Ok? {
        AddedDepth(old(revisions), r.value, revisions[r.value]);
        AddedIsNew(old(revisions), old(recorded), revisions, recorded, fileId, before, after, r.value);
      }
    }

    /** A further revision of a file, against its newest row or as a snapshot. */
    method AppendTo(fileId: int, latest: int, after: Bytes, user: string, cfg: Config, now: int)
      returns (r: Result<int, Error>)
      requires Valid() && fileId in files && Latest(revisions, fileId) == Some(latest)
      modifies this`revisions, this`recorded
      ensures Valid()
      ensures r == Err(EncodeFailed) || r.Ok?
      ensures r.Ok? <==> codec.encodeSnapshot(after, cfg.zstdLevel).Some?
      ensures r.Ok? ==> Added(old(revisions), old(recorded), revisions, recorded, r.value, fileId, after)
      ensures r.Ok? ==> revisions[r.value].user == user && revisions[r.value].created == now
      ensures r.Ok? ==>
        revisions[r.value].base == BaseFor(codec, old(revisions), old(recorded), fileId, after, cfg)
      ensures r.Ok? ==> forall n: nat :: 2 <= n && cfg.anchorInterval <= n ==> KeepsBound(old(revisions), revisions, n)
    {
      var chainLength := |ChainRows(revisions, fileId, revisions[latest].chainId)|;
      var previous := Err(NoAnchor);
      if chainLength < ToInt64(OrDefault(cfg.anchorInterval, 1)) {
        previous := Reconstruct(codec, revisions, latest);
        ReconstructionExact(codec, revisions, recorded, latest);
      }
      if previous.Err? {
        r := InsertSnapshot(fileId, user, after, now, cfg.zstdLevel);
      } else {
        r := InsertCompact(fileId, latest, previous.value, user, after, now, cfg.zstdLevel);
      }
    }

    method DropRows(u: Table)
      requires Valid() && WholeChainsDropped(revisions, u)
      modifies this`revisions, this`recorded
      ensures Valid() && revisions == u && recorded == Restrict(old(recorded), u.Keys)
    {
      DropKeepsInvariants(codec, revisions, u, recorded);
      recorded := Restrict(recorded, u.Keys);
      revisions := u;
    }

    /** The file keeps its `keep` newest chains, whole; other files keep everything. */
    method PruneOldChains(fileId: int, keep: uint64)
      requires Valid() && 0 < keep
      modifies this`revisions, this`recorded
      ensures Valid() && WholeChainsDropped(old(revisions), revisions)
      ensures recorded == Restrict(old(recorded), revisions.Keys)
      ensures ChainsOf(revisions, fileId) == Newest(ChainsOf(old(revisions), fileId), keep)
      ensures forall i :: i in old(revisions) && old(revisions)[i].fileId != fileId ==> i in revisions
    {
      var all := ChainsOf(revisions, fileId);
      var chains := Descending(all, keep);
      if |chains| < keep || |chains| == 0 {
        assert revisions.Keys <= recorded.Keys;
        NewestOfFew(all, keep);
        return;
      }
      var threshold := chains[|chains| - 1];
      var t := revisions;
      var u := map i | i in t && !(t[i].fileId == fileId && t[i].chainId < threshold) :: t[i];
      OldChainsPruned(t, u, fileId, keep, threshold);
      DropRows(u);
    }

    /** Drops the oldest unprotected chain of a file that has more than `minChains` chains. */
    method DropOldestChain(fileId: int, protect: Option<int>, minChains: uint64) returns (freed: nat)
      requires Valid()
      modifies this`revisions, this`recorded
      ensures Valid() && WholeChainsDropped(old(revisions), revisions)
      ensures recorded == Restrict(old(recorded), revisions.Keys)
      ensures var t, candidates := old(revisions), Unprotected(old(revisions), fileId, protect);
        if |ChainsOf(t, fileId)| <= OrDefault(minChains, 1) || candidates == {} then freed == 0 && revisions == t
        else
          && revisions == DropChain(t, fileId, MinOf(candidates)) && |revisions| < |t|
          && freed == PayloadBytes(t, ChainRows(t, fileId, MinOf(candidates)))
    {
      assert revisions.Keys <= recorded.Keys;
      if |ChainsOf(revisions, fileId)| <= OrDefault(minChains, 1) {
        return 0;
      }
      var candidates := Unprotected(revisions, fileId, protect);
      if candidates == {} {
        return 0;
      }
      var chain := MinOf(candidates);
      freed := PayloadBytes(revisions, ChainRows(revisions, fileId, chain));
      DropShrinks(revisions, fileId, chain);
      DropRows(DropChain(revisions, fileId, chain));
    }

    /** Whatever the byte budget, the file ends with exactly its newest chains. */
    method PruneHistory(fileId: int, protect: Option<int>, cfg: Config)
      requires Valid()
      modifies this`revisions, this`recorded
      ensures Valid() && WholeChainsDropped(old(revisions), revisions)
      ensures recorded == Restrict(old(recorded), revisions.Keys)
      ensures ChainsOf(revisions, fileId) == Newest(ChainsOf(old(revisions), fileId), OrDefault(cfg.keepChains, 1))
      ensures forall i :: i in old(revisions) && old(revisions)[i].fileId != fileId ==> i in revisions
    {
      var keep := OrDefault(cfg.keepChains, 1);
      PruneOldChains(fileId, keep);
      NewestCount(ChainsOf(old(revisions), fileId), keep);
      EnforceFileBudget(fileId, protect, keep, cfg.perFileBudget);
    }

    /** The byte budget of a file never has an effect: the count of chains is already down to the minimum. */
    method EnforceFileBudget(fileId: int, protect: Option<int>, keep: uint64, budget: uint64)
      requires Valid() && 0 < keep && |ChainsOf(revisions, fileId)| <= keep
      modifies this`revisions, this`recorded
      ensures revisions == old(revisions) && recorded == old(recorded)
    {
      var freed := 1;
      var size := PayloadBytes(revisions, FileRows(revisions, fileId));
      while size > budget && freed != 0
        invariant Valid() && revisions == old(revisions) && recorded == old(recorded)
        decreases |revisions|, freed != 0
      {
        freed := DropOldestChain(fileId, protect, keep);
        assert recorded == old(recorded);
        size := PayloadBytes(revisions, FileRows(revisions, fileId));
      }
    }

    /** Drops, over all files, the chain whose first revision is oldest. */
    method DropGloballyOldest(protectedFile: int, protectedChain: Option<int>) returns (freed: nat)
      requires Valid()
      modifies this`revisions, this`recorded
      ensures Valid() && Pruned(old(revisions), old(recorded), revisions, recorded, protectedFile, protectedChain)
      ensures var candidates := Droppable(old(revisions), protectedFile, protectedChain);
        if candidates == {} then freed == 0 && revisions == old(revisions)
        else
          var c := Oldest(old(revisions), candidates);
          && c in old(revisions)
          && revisions == DropChain(old(revisions), old(revisions)[c].fileId, c)
          && freed == PayloadBytes(old(revisions), ChainRows(old(revisions), old(revisions)[c].fileId, c))
          && |revisions| < |old(revisions)|
    {
      var candidates := Droppable(revisions, protectedFile, protectedChain);
      assert revisions.Keys <= recorded.Keys;
      if candidates == {} {
        return 0;
      }
      var chain := Oldest(revisions, candidates);
      DropOneDroppable(revisions, protectedFile, protectedChain, chain);
      var fileId := revisions[chain].fileId;
      freed := PayloadBytes(revisions, ChainRows(revisions, fileId, chain));
      DropRows(DropChain(revisions, fileId, chain));
    }

    /** Ends within the budget or with nothing left to drop exactly when the table does not stall. */
    method PruneServerHistory(protectedFile: int, protectedChain: Option<int>, cfg: Config)
      requires Valid()
      modifies this`revisions, this`recorded
      ensures Valid() && Pruned(old(revisions), old(recorded), revisions, recorded, protectedFile, protectedChain)
      ensures cfg.perServerBudget == 0 ==> revisions == old(revisions)
      ensures cfg.perServerBudget != 0 ==>
        (Satisfied(revisions, protectedFile, protectedChain, cfg.perServerBudget) <==>
         !Stalls(old(revisions), protectedFile, protectedChain, cfg.perServerBudget))
      ensures OnlyAsNeeded(old(revisions), revisions, protectedFile, protectedChain, cfg.perServerBudget)
    {
      assert revisions.Keys <= recorded.Keys;
      if cfg.perServerBudget == 0 {
        return;
      }
      while true
        invariant Valid() && Pruned(old(revisions), old(recorded), revisions, recorded, protectedFile, protectedChain)
        invariant OnlyAsNeeded(old(revisions), revisions, protectedFile, protectedChain, cfg.perServerBudget)
        invariant Stalls(old(revisions), protectedFile, protectedChain, cfg.perServerBudget) <==>
          Stalls(revisions, protectedFile, protectedChain, cfg.perServerBudget)
        decreases |revisions|
      {
        var size := PayloadBytes(revisions, revisions.Keys);
        if size <= cfg.perServerBudget {
          return;
        }
        var freed := DropOverBudget(protectedFile, protectedChain, cfg.perServerBudget, old(revisions), old(recorded));
        if freed == 0 {
          return;
        }
      }
    }

    /** One turn of the loop, from a table that is over the budget. */
    method DropOverBudget(protectedFile: int, protectedChain: Option<int>, ghost budget: nat, ghost t0: Table,
                          ghost r0: Contents)
      returns (freed: nat)
      requires Valid() && Pruned(t0, r0, revisions, recorded, protectedFile, protectedChain)
      requires PayloadBytes(revisions, revisions.Keys) > budget
      requires OnlyAsNeeded(t0, revisions, protectedFile, protectedChain, budget)
      modifies this`revisions, this`recorded
      ensures Valid() && Pruned(t0, r0, revisions, recorded, protectedFile, protectedChain)
      ensures OnlyAsNeeded(t0, revisions, protectedFile, protectedChain, budget)
      ensures freed > 0 ==> |revisions| < |old(revisions)|
      ensures freed > 0 ==>
        (Stalls(old(revisions), protectedFile, protectedChain, budget) <==>
         Stalls(revisions, protectedFile, protectedChain, budget))
      ensures freed == 0 ==>
        (Satisfied(revisions, protectedFile, protectedChain, budget) <==>
         !Stalls(old(revisions), protectedFile, protectedChain, budget))
    {
      ghost var t, r := revisions, recorded;
      freed := DropGloballyOldest(protectedFile, protectedChain);
      PrunedComposes(t0, r0, t, r, revisions, recorded, protectedFile, protectedChain);
      if Droppable(t, protectedFile, protectedChain) != {} {
        NeededStep(t0, t, revisions, protectedFile, protectedChain, budget);
        StallStep(t, protectedFile, protectedChain, budget);
      }
    }

    /** The file whose history a path has, if any, and its newest revision. */
    ghost function LatestOf(path: string): Option<int>
      reads this
    {
      var f := FileIdOf(files, path);
      if f.None? then None else Latest(revisions, f.value)
    }

    ghost function BaseOf(path: string, after: Bytes, cfg: Config): Option<int>
      requires Valid()
      reads this
    {
      var f := FileIdOf(files, path);
      if f.None? then None else BaseFor(codec, revisions, recorded, f.value, after, cfg)
    }

    /** Recording `after` under this path would store a delta beyond the walk limit. */
    ghost predicate CannotReadBack(path: string, after: Bytes, cfg: Config)
      requires Valid()
      reads this
    {
      var f := FileIdOf(files, path);
      f.Some? && TooDeep(codec, revisions, recorded, f.value, after, cfg)
    }

    /** The work of one transaction once the file is known and its newest content differs. */
    method AppendAndPrune(fileId: int, before: Bytes, after: Bytes, user: string, cfg: Config, now: int)
      returns (r: Result<int, Error>)
      requires Valid() && fileId in files
      modifies this`revisions, this`recorded
      ensures Valid()
      ensures r == Err(EncodeFailed) || r.Ok?
      ensures r.Err? ==> EncodingFails(before, after, cfg)
      ensures r.Ok? ==> r.value in revisions && revisions[r.value].fileId == fileId && recorded[r.value] == after
      ensures r.Ok? ==> revisions[r.value].user == user && revisions[r.value].created == now
      ensures r.Ok? ==> Recorded(old(revisions), old(recorded), revisions, recorded, r.value, before,
                                 Latest(old(revisions), fileId).None?)
      ensures r.Ok? ==>
        (Reconstruction(codec, revisions, r.value) == Ok(after) <==>
         !TooDeep(codec, old(revisions), old(recorded), fileId, after, cfg))
      ensures r.Ok? && Latest(old(revisions), fileId).Some? ==>
        revisions[r.value].base == BaseFor(codec, old(revisions), old(recorded), fileId, after, cfg)
      ensures r.Ok? && Latest(old(revisions), fileId) == None && |before| > 0 ==>
        PriorOutcome(old(revisions), revisions, recorded, fileId, before, r.value, cfg,
                     PrefersDelta(codec, before, after, cfg.zstdLevel))
      ensures r.Ok? ==> |ChainsOf(revisions, fileId)| <= OrDefault(cfg.keepChains, 1)
      ensures r.Ok? ==> forall n: nat :: 2 <= n && cfg.anchorInterval <= n ==> KeepsBound(old(revisions), revisions, n)
    {
      r := AppendRevision(fileId, before, after, user, cfg, now);
      if r.Err? {
        return;
      }
      ghost var t1, r1 := revisions, recorded;
      var protectedChain := Some(revisions[r.value].chainId);
      PruneHistory(fileId, protectedChain, cfg);
      ghost var t2, r2 := revisions, recorded;
      NewestPrunes(t1, r1, t2, r2, fileId, r.value, OrDefault(cfg.keepChains, 1));
      PruneServerHistory(fileId, protectedChain, cfg);
      PrunedComposes(t1, r1, t2, r2, revisions, recorded, fileId, protectedChain);
      if Latest(old(revisions), fileId) == None && |before| > 0 {
        PriorSurvives(old(revisions), t1, r1, t2, revisions, recorded, fileId, before, r.value,
                      PrefersDelta(codec, before, after, cfg.zstdLevel), OrDefault(cfg.keepChains, 1));
      }
      RecordSummary(old(revisions), old(recorded), t1, r1, revisions, recorded, fileId, before, after, r.value);
      ChainsShrink(t2, revisions, fileId);
      DropKeepsDepth(t1, revisions, r.value);
      ReconstructionExact(codec, revisions, recorded, r.value);
      forall n: nat | 2 <= n && cfg.anchorInterval <= n ensures KeepsBound(old(revisions), revisions, n) {
        assert KeepsBound(old(revisions), t1, n);
        if ChainsAtMost(t1, n) {
          DropKeepsChainsAtMost(t1, revisions, n);
        }
      }
    }

    /**
     Records a change from `before` to `after`. `commits` is whether the database accepts the
     transaction; a failed one leaves no trace.

     The returned id reads back as `after`, except in two cases. When the newest revision has the
     digest of `after`, that revision is returned instead, and reads back as `after` only if it holds
     that content within the walk limit. When the newest revision is the last one the walk can
     reach and a delta is made against it, the new revision is stored and cannot be read back.
     */
    method Record(path: string, before: Bytes, after: Bytes, user: string, cfg: Config, now: int, commits: bool)
      returns (r: Result<int, Error>)
      requires Valid()
      modifies this
      ensures Valid()
      ensures r.Err? || before == after ==>
        files == old(files) && revisions == old(revisions) && recorded == old(recorded)
      ensures before == after ==> r == Ok(0)
      ensures before != after && !commits ==> r.Err?
      ensures r.Err? ==>
        (r.error == CommitFailed && !commits) || (r.error == EncodeFailed && EncodingFails(before, after, cfg))
      ensures r.Ok? && before != after ==> r.value in revisions && (revisions[r.value].fileId, path) in files.Items
      ensures r.Ok? && before != after ==>
        var latest := old(LatestOf(path));
        if latest.Some? && old(revisions)[latest.value].hash == codec.hash(after) then
          && r.value == latest.value && revisions == old(revisions) && recorded == old(recorded)
          && (Reconstruction(codec, revisions, r.value) == Ok(after) <==>
              recorded[r.value] == after && Depth(revisions, r.value) <= WALK_LIMIT)
        else
          && recorded[r.value] == after && revisions[r.value].user == user && revisions[r.value].created == now
          && (Reconstruction(codec, revisions, r.value) == Ok(after) <==> !old(CannotReadBack(path, after, cfg)))
          && Recorded(old(revisions), old(recorded), revisions, recorded, r.value, before, old(LatestOf(path)).None?)
          && |ChainsOf(revisions, revisions[r.value].fileId)| <= OrDefault(cfg.keepChains, 1)
          && (latest.Some? ==> revisions[r.value].base == old(BaseOf(path, after, cfg)))
          && (latest.None? && |before| > 0 ==>
                PriorOutcome(old(revisions), revisions, recorded, revisions[r.value].fileId, before, r.value, cfg,
                             PrefersDelta(codec, before, after, cfg.zstdLevel)))
      ensures forall n: nat :: 2 <= n && cfg.anchorInterval <= n ==> KeepsBound(old(revisions), revisions, n)
    {
      if before == after {
        return Ok(0);
      }
      var savedFiles, savedRevisions := files, revisions;
      ghost var savedRecorded := recorded;
      var fileId := UpsertFile(path);
      FileIdStable(old(files), files, path, fileId);
      var latest := Latest(revisions, fileId);
      if latest.Some? && revisions[latest.value].hash == codec.hash(after) {
        if !commits {
          files := savedFiles;
          return Err(CommitFailed);
        }
        ReconstructionExact(codec, revisions, recorded, latest.value);
        return Ok(latest.value);
      }
      r := AppendAndPrune(fileId, before, after, user, cfg, now);
      if r.Ok? && !commits {
        r := Err(CommitFailed);
      }
      if r.Err? {
        files, revisions, recorded := savedFiles, savedRevisions, savedRecorded;
      }
    }

    /** ON DELETE CASCADE: the path and all its revisions go, nothing else changes. */
    method DeleteFile(path: string)
      requires Valid()
      modifies this
      ensures Valid()
      ensures files == map f | f in old(files) && old(files)[f] != path :: old(files)[f]
      ensures WholeChainsDropped(old(revisions), revisions)
      ensures forall i :: i in old(revisions) ==> (i in revisions <==> old(files)[old(revisions)[i].fileId] != path)
      ensures recorded == Restrict(old(recorded), revisions.Keys)
    {
      var fs, t := files, revisions;
      var u := map i | i in t && fs[t[i].fileId] != path :: t[i];
      DropRows(u);
      files := map f | f in fs && fs[f] != path :: fs[f];
    }

    /** Succeeds unless another file already has the new path. */
    method RenameFile(oldPath: string, newPath: string) returns (ok: bool)
      requires Valid()
      modifies this`files
      ensures Valid()
      ensures ok <==> !(oldPath != newPath && oldPath in old(files.Values) && newPath in old(files.Values))
      ensures !ok ==> files == old(files)
      ensures ok ==> files.Keys == old(files.Keys)
      ensures ok ==> forall f :: f in files ==> files[f] == if old(files)[f] == oldPath then newPath else old(files)[f]
    {
      var fs := files;
      if oldPath != newPath && oldPath in fs.Values && newPath in fs.Values {
        return false;
      }
      files := map f | f in fs :: if fs[f] == oldPath then newPath else fs[f];
      ok := true;
      forall f, g | f in files && g in files && files[f] == files[g] ensures f == g {
        assert fs[f] in fs.Values && fs[g] in fs.Values;
      }
    }

    /** The content and path of a revision, read back through the chain. */
    method ReadContent(id: int) returns (r: Result<(Bytes, string), Error>)
      requires Valid()
      ensures id !in revisions ==> r == Err(NotFound)
      ensures id in revisions ==>
        r == if Depth(revisions, id) > WALK_LIMIT then Err(NoAnchor)
             else Ok((recorded[id], files[revisions[id].fileId]))
    {
      var content := Reconstruct(codec, revisions, id);
      if id in revisions {
        ReconstructionExact(codec, revisions, recorded, id);
        RebuildYieldsRecorded(codec, revisions, recorded, id);
      }
      if content.Err? {
        return Err(content.error);
      }
      r := Ok((content.value, files[revisions[id].fileId]));
    }
  }

  // ----------------------------------------------------------------- whole runs

  datatype Operation =
    | Change(path: string, before: Bytes, after: Bytes, user: string, cfg: Config, now: int, commits: bool)
    | Forget(path: string)
    | Rename(oldPath: string, newPath: string)

  type Origins = map<int, nat>

  /** Row `id` was written by operation `origin[id]`: as its answer it holds the content after the
      change, otherwise the content before it. */
  ghost predicate Written(ops: seq<Operation>, replies: seq<Result<int, Error>>, recorded: Contents, origin: Origins,
                          id: int)
    requires id in recorded && id in origin
  {
    var k := origin[id];
    && k < |replies| <= |ops| && ops[k].Change?
    && recorded[id] == if replies[k] == Ok(id) then ops[k].after else ops[k].before
  }

  /** The id that operation `k` answered still stands for its content, up to the digest, until it
      is deleted or given to a later row. */
  ghost predicate Answered(z: Codec, ops: seq<Operation>, replies: seq<Result<int, Error>>,
                           recorded: Contents, origin: Origins, k: int)
    requires 0 <= k < |replies| <= |ops|
  {
    ops[k].Change? && ops[k].before != ops[k].after && replies[k].Ok? ==>
      var id := replies[k].value;
      id in recorded && id in origin && origin[id] <= k ==> z.hash(recorded[id]) == z.hash(ops[k].after)
  }

  ghost predicate Traced(z: Codec, ops: seq<Operation>, replies: seq<Result<int, Error>>, recorded: Contents,
                         origin: Origins)
  {
    && |replies| <= |ops| && origin.Keys == recorded.Keys
    && (forall id :: id in recorded ==> Written(ops, replies, recorded, origin, id))
    && (forall k :: 0 <= k < |replies| ==> Answered(z, ops, replies, recorded, origin, k))
  }

  /** An operation that at most removes rows. */
  lemma TraceLess(z: Codec, ops: seq<Operation>, replies: seq<Result<int, Error>>, r: Contents, r': Contents,
                  origin: Origins, origin': Origins, reply: Result<int, Error>)
    requires Traced(z, ops, replies, r, origin) && |replies| < |ops|
    requires r'.Keys <= r.Keys && origin'.Keys == r'.Keys
    requires forall i :: i in r' ==> r'[i] == r[i] && origin'[i] == origin[i]
    requires var op := ops[|replies|];
      op.Change? && op.before != op.after && reply.Ok? ==>
        reply.value in r' && z.hash(r'[reply.value]) == z.hash(op.after)
    ensures Traced(z, ops, replies + [reply], r', origin')
  {
    forall id | id in r' ensures Written(ops, replies + [reply], r', origin', id) {
      assert Written(ops, replies, r, origin, id);
    }
    forall k | 0 <= k <= |replies| ensures Answered(z, ops, replies + [reply], r', origin', k) {
      if k < |replies| {
        assert Answered(z, ops, replies, r, origin, k);
      }
    }
  }

  /** A recorded change: what is new has this operation as its origin. */
  lemma TraceMore(z: Codec, ops: seq<Operation>, replies: seq<Result<int, Error>>, t: Table, r: Contents,
                  u: Table, r': Contents, origin: Origins, origin': Origins, id: int, first: bool)
    requires Traced(z, ops, replies, r, origin) && |replies| < |ops| && ops[|replies|].Change?
    requires Recorded(t, r, u, r', id, ops[|replies|].before, first) && r'[id] == ops[|replies|].after
    requires origin'.Keys == u.Keys && forall i :: i in u ==> origin'[i] == if i in t then origin[i] else |replies|
    ensures Traced(z, ops, replies + [Ok(id)], r', origin')
  {
    var all := replies + [Ok(id)];
    forall i | i in r' ensures Written(ops, all, r', origin', i) {
      if i in t {
        assert Written(ops, replies, r, origin, i);
      }
    }
    forall k | 0 <= k <= |replies| ensures Answered(z, ops, all, r', origin', k) {
      if k < |replies| {
        assert Answered(z, ops, replies, r, origin, k);
      }
    }
  }

  /**
   Whatever is done to a new store, in whatever order: as long as no anchor interval exceeds the
   walk limit, every revision that survives reads back as the content that its operation recorded,
   and the id an operation returned reads back as its new content, up to the digest, until the
   revision is deleted or its id is given to a later row.
   */
  method Run(store: Store, operations: seq<Operation>, limit: nat)
    returns (replies: seq<Result<int, Error>>, ghost origin: Origins)
    requires store.Valid() && store.revisions == map[]
    requires 2 <= limit <= WALK_LIMIT
    requires forall k :: 0 <= k < |operations| && operations[k].Change? ==> operations[k].cfg.anchorInterval <= limit
    modifies store
    ensures store.Valid() && ChainsAtMost(store.revisions, limit) && |replies| == |operations|
    ensures Traced(store.codec, operations, replies, store.recorded, origin)
    ensures forall id :: id in store.revisions ==>
      Reconstruction(store.codec, store.revisions, id) == Ok(store.recorded[id])
  {
    replies, origin := [], map[];
    for k := 0 to |operations|
      invariant store.Valid() && ChainsAtMost(store.revisions, limit) && |replies| == k
      invariant Traced(store.codec, operations, replies, store.recorded, origin)
    {
      var reply: Result<int, Error>;
      reply, origin := Perform(store, operations, replies, limit, origin);
      replies := replies + [reply];
    }
    assert ChainsAtMost(store.revisions, WALK_LIMIT);
    AllReconstruct(store.codec, store.revisions, store.recorded);
  }

  /** The next operation of a run. */
  method Perform(store: Store, operations: seq<Operation>, replies: seq<Result<int, Error>>, ghost limit: nat,
                 ghost origin: Origins)
    returns (reply: Result<int, Error>, ghost origin': Origins)
    requires store.Valid() && ChainsAtMost(store.revisions, limit) && 2 <= limit
    requires |replies| < |operations|
    requires operations[|replies|].Change? ==> operations[|replies|].cfg.anchorInterval <= limit
    requires Traced(store.codec, operations, replies, store.recorded, origin)
    modifies store
    ensures store.Valid() && ChainsAtMost(store.revisions, limit)
    ensures Traced(store.codec, operations, replies + [reply], store.recorded, origin')
  {
    ghost var t, r := store.revisions, store.recorded;
    match operations[|replies|]
    case Change(path, before, after, user, cfg, now, commits) =>
      reply, origin' := PerformChange(store, operations, replies, origin);
      assert KeepsBound(t, store.revisions, limit);
    case Forget(path) =>
      store.DeleteFile(path);
      DropKeepsChainsAtMost(t, store.revisions, limit);
      reply, origin' := Ok(0), map i | i in store.recorded :: origin[i];
      TraceLess(store.codec, operations, replies, r, store.recorded, origin, origin', reply);
    case Rename(oldPath, newPath) =>
      var ok := store.RenameFile(oldPath, newPath);
      reply, origin' := Ok(0), origin;
      TraceLess(store.codec, operations, replies, r, r, origin, origin, reply);
  }

  method PerformChange(store: Store, operations: seq<Operation>, replies: seq<Result<int, Error>>,
                       ghost origin: Origins)
    returns (reply: Result<int, Error>, ghost origin': Origins)
    requires store.Valid() && |replies| < |operations| && operations[|replies|].Change?
    requires Traced(store.codec, operations, replies, store.recorded, origin)
    modifies store
    ensures store.Valid()
    ensures forall n: nat :: 2 <= n && operations[|replies|].cfg.anchorInterval <= n ==>
      KeepsBound(old(store.revisions), store.revisions, n)
    ensures Traced(store.codec, operations, replies + [reply], store.recorded, origin')
  {
    ghost var t, r := store.revisions, store.recorded;
    var op := operations[|replies|];
    ghost var latest := store.LatestOf(op.path);
    reply := store.Record(op.path, op.before, op.after, op.user, op.cfg, op.now, op.commits);
    if reply.Err? || op.before == op.after || (latest.Some? && t[latest.value].hash == store.codec.hash(op.after)) {
      origin' := origin;
      if latest.Some? {
        assert RowFaithful(store.codec, t, r, latest.value);
      }
      TraceLess(store.codec, operations, replies, r, r, origin, origin, reply);
    } else {
      origin' := map i | i in store.revisions :: if i in t then origin[i] else |replies|;
      TraceMore(store.codec, operations, replies, t, r, store.revisions, store.recorded, origin, origin',
                reply.value, latest.None?);
    }
  }
}
