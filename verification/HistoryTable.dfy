/**
 The rows of one server's revision table: what links a delta to the row it was made
 against, what a stored payload has to decode to, and which rows form a chain.
 */
module HistoryTable {
  import opened Common

  /** The compressor and the digest. Only the snapshot round trip is taken for granted:
      the store checks the delta round trip itself. */
  datatype Codec = Codec(
    encodeSnapshot: (Bytes, int) -> Option<Bytes>,
    decodeSnapshot: Bytes -> Option<Bytes>,
    encodeRawDelta: (Bytes, Bytes, int) -> Option<Bytes>,
    decodeDelta: (Bytes, Bytes) -> Option<Bytes>,
    hash: Bytes -> string)
  {
    ghost predicate Lawful() {
      forall content: Bytes, level: int ::
        encodeSnapshot(content, level).Some? ==>
          decodeSnapshot(encodeSnapshot(content, level).value) == Some(content)
    }

    /** A delta is only handed out after it has been decoded back to the content. */
    function EncodeDelta(base: Bytes, content: Bytes, level: int): (r: Option<Bytes>)
      ensures r.Some? ==> decodeDelta(r.value, base) == Some(content)
    {
      var raw := encodeRawDelta(base, content, level);
      if raw.None? || decodeDelta(raw.value, base) != Some(content) then None else raw
    }
  }

  datatype Revision = Revision(
    fileId: int, chainId: int, size: nat, user: string,
    base: Option<int>, payload: Bytes, hash: string, created: int)

  type Table = map<int, Revision>
  type Contents = map<int, Bytes>

  datatype Error = NotFound | NoAnchor | BadPayload | HashMismatch | EncodeFailed | CommitFailed

  /** The walk towards the snapshot gives up after this many rows. */
  const WALK_LIMIT := 1000

  // ---------------------------------------------------------------- structure

  ghost predicate SameChain(t: Table, i: int, j: int)
    requires i in t && j in t
  {
    t[i].fileId == t[j].fileId && t[i].chainId == t[j].chainId
  }

  /** A snapshot heads its own chain; a delta names an earlier row of its own chain. */
  ghost predicate RowLinked(t: Table, id: int)
    requires id in t
  {
    && 0 < id
    && t[id].chainId <= id
    && t[id].chainId in t && SameChain(t, t[id].chainId, id)
    && match t[id].base
       case None => t[id].chainId == id
       case Some(b) => b in t && b < id && SameChain(t, b, id)
  }

  /** Later rows of a file are never in an older chain. */
  ghost predicate InOrder(t: Table, i: int, j: int)
    requires i in t && j in t
  {
    i < j && t[i].fileId == t[j].fileId ==> t[i].chainId <= t[j].chainId
  }

  ghost predicate Linked(t: Table) {
    && (forall id {:trigger RowLinked(t, id)} :: id in t ==> RowLinked(t, id))
    && (forall i, j {:trigger InOrder(t, i, j)} :: i in t && j in t ==> InOrder(t, i, j))
  }

  /** The payload of a row decodes to what was recorded under its id. */
  ghost predicate RowFaithful(z: Codec, t: Table, recorded: Contents, id: int)
    requires id in t && id in recorded
  {
    && t[id].hash == z.hash(recorded[id])
    && t[id].size == |recorded[id]|
    && match t[id].base
       case None => z.decodeSnapshot(t[id].payload) == Some(recorded[id])
       case Some(b) => b in recorded && z.decodeDelta(t[id].payload, recorded[b]) == Some(recorded[id])
  }

  ghost predicate Faithful(z: Codec, t: Table, recorded: Contents) {
    && recorded.Keys == t.Keys
    && forall id {:trigger RowFaithful(z, t, recorded, id)} :: id in t ==> RowFaithful(z, t, recorded, id)
  }

  function ChainRows(t: Table, fileId: int, chainId: int): set<int> {
    set id | id in t && t[id].fileId == fileId && t[id].chainId == chainId
  }

  function FileRows(t: Table, fileId: int): set<int> {
    set id | id in t && t[id].fileId == fileId
  }

  function ChainsOf(t: Table, fileId: int): set<int> {
    set id | id in t && t[id].fileId == fileId :: t[id].chainId
  }

  ghost predicate ChainsAtMost(t: Table, n: nat) {
    forall id :: id in t ==> |ChainRows(t, t[id].fileId, t[id].chainId)| <= n
  }

  // ---------------------------------------------------------- reconstruction

  /** How many rows the walk from `id` to its snapshot visits. */
  ghost function Depth(t: Table, id: int): (d: nat)
    requires Linked(t) && id in t
    ensures d >= 1
    decreases id
  {
    assert RowLinked(t, id);
    match t[id].base
    case None => 1
    case Some(b) => assert RowLinked(t, b); 1 + Depth(t, b)
  }

  function Checked(z: Codec, content: Option<Bytes>, hash: string): Result<Bytes, Error> {
    if content.None? then Err(BadPayload)
    else if z.hash(content.value) != hash then Err(HashMismatch)
    else Ok(content.value)
  }

  /** Decode the snapshot, then every delta towards `id`, checking each digest. */
  ghost function Rebuild(z: Codec, t: Table, id: int): Result<Bytes, Error>
    requires Linked(t) && id in t
    decreases id
  {
    assert RowLinked(t, id);
    match t[id].base
    case None => Checked(z, z.decodeSnapshot(t[id].payload), t[id].hash)
    case Some(b) =>
      assert RowLinked(t, b);
      var below := Rebuild(z, t, b);
      if below.Err? then below else Checked(z, z.decodeDelta(t[id].payload, below.value), t[id].hash)
  }

  ghost function Reconstruction(z: Codec, t: Table, id: int): Result<Bytes, Error>
    requires Linked(t)
  {
    if id !in t then Err(NotFound)
    else if Depth(t, id) > WALK_LIMIT then Err(NoAnchor)
    else Rebuild(z, t, id)
  }

  lemma {:induction false} RebuildYieldsRecorded(z: Codec, t: Table, recorded: Contents, id: int)
    requires Linked(t) && Faithful(z, t, recorded) && id in t
    ensures Rebuild(z, t, id) == Ok(recorded[id])
    decreases id
  {
    assert RowLinked(t, id) && RowFaithful(z, t, recorded, id);
    match t[id].base
    case None =>
    case Some(b) =>
      assert RowLinked(t, b);
      RebuildYieldsRecorded(z, t, recorded, b);
  }

  /** Exactly the rows within the walk limit can be read back, and they read back exactly. */
  lemma ReconstructionExact(z: Codec, t: Table, recorded: Contents, id: int)
    requires Linked(t) && Faithful(z, t, recorded) && id in t
    ensures Reconstruction(z, t, id) == Ok(recorded[id]) <==> Depth(t, id) <= WALK_LIMIT
    ensures Depth(t, id) > WALK_LIMIT ==> Reconstruction(z, t, id) == Err(NoAnchor)
  {
    RebuildYieldsRecorded(z, t, recorded, id);
  }

  lemma {:induction false} DepthWithinPrefix(t: Table, id: int)
    requires Linked(t) && id in t
    ensures Depth(t, id) <= |set i | i in ChainRows(t, t[id].fileId, t[id].chainId) && i <= id|
    decreases id
  {
    assert RowLinked(t, id);
    var rows := ChainRows(t, t[id].fileId, t[id].chainId);
    var upTo := set i | i in rows && i <= id;
    match t[id].base
    case None =>
      assert id in upTo;
      assert |upTo| > 0;
    case Some(b) =>
      assert RowLinked(t, b);
      DepthWithinPrefix(t, b);
      var below := set i | i in rows && i <= b;
      SubsetCard(below + {id}, upTo);
  }

  lemma DepthWithinChain(t: Table, id: int)
    requires Linked(t) && id in t
    ensures Depth(t, id) <= |ChainRows(t, t[id].fileId, t[id].chainId)|
  {
    DepthWithinPrefix(t, id);
    var rows := ChainRows(t, t[id].fileId, t[id].chainId);
    SubsetCard((set i | i in rows && i <= id), rows);
  }

  /** A store whose chains stay within the walk limit reads every surviving revision back. */
  lemma AllReconstruct(z: Codec, t: Table, recorded: Contents)
    requires Linked(t) && Faithful(z, t, recorded) && ChainsAtMost(t, WALK_LIMIT)
    ensures forall id :: id in t ==> Reconstruction(z, t, id) == Ok(recorded[id])
  {
    forall id | id in t ensures Reconstruction(z, t, id) == Ok(recorded[id]) {
      DepthWithinChain(t, id);
      ReconstructionExact(z, t, recorded, id);
    }
  }

  // ------------------------------------------------------------------- inserts

  /** SQLite's rowid choice for a table without AUTOINCREMENT. */
  function NextId(keys: set<int>): (id: int)
    ensures id !in keys
    ensures forall k :: k in keys ==> k < id
  {
    if keys == {} then 1 else MaxOf(keys) + 1
  }

  /** What holds of a row about to be added, whichever kind it is. */
  ghost predicate Addable(z: Codec, t: Table, recorded: Contents, row: Revision, content: Bytes) {
    && row.hash == z.hash(content)
    && row.size == |content|
    && match row.base
       case None =>
         row.chainId == NextId(t.Keys) && z.decodeSnapshot(row.payload) == Some(content)
       case Some(b) =>
         && b in t && b in recorded
         && row.fileId == t[b].fileId && row.chainId == t[b].chainId
         && (forall i :: i in t && t[i].fileId == row.fileId ==> i <= b)
         && z.decodeDelta(row.payload, recorded[b]) == Some(content)
  }

  lemma NextIdPositive(t: Table)
    requires Linked(t)
    ensures 0 < NextId(t.Keys)
  {
    if t.Keys != {} {
      assert RowLinked(t, MaxOf(t.Keys));
    }
  }

  /** The new row is linked, whichever kind it is. */
  lemma AddedRowLinked(z: Codec, t: Table, recorded: Contents, row: Revision, content: Bytes)
    requires Linked(t) && Addable(z, t, recorded, row, content)
    ensures var id := NextId(t.Keys); RowLinked(t[id := row], id)
    ensures row.chainId <= NextId(t.Keys)
    ensures forall i :: i in t && t[i].fileId == row.fileId ==> t[i].chainId <= row.chainId
  {
    NextIdPositive(t);
    var id := NextId(t.Keys);
    if row.base.Some? {
      var b := row.base.value;
      assert RowLinked(t, b);
    }
    forall i | i in t && t[i].fileId == row.fileId ensures t[i].chainId <= row.chainId {
      assert RowLinked(t, i);
      if row.base.Some? {
        assert InOrder(t, i, row.base.value);
      }
    }
  }

  lemma AddKeepsLinked(z: Codec, t: Table, recorded: Contents, row: Revision, content: Bytes)
    requires Linked(t) && Addable(z, t, recorded, row, content)
    ensures var id := NextId(t.Keys); Linked(t[id := row])
  {
    AddedRowLinked(z, t, recorded, row, content);
    var id := NextId(t.Keys);
    var u := t[id := row];
    forall i | i in u ensures RowLinked(u, i) {
      if i != id {
        assert RowLinked(t, i);
        OldRowStaysLinked(t, id, row, i);
      }
    }
    forall i, j | i in u && j in u ensures InOrder(u, i, j) {
      if i in t && j in t {
        assert InOrder(t, i, j);
      }
    }
  }

  lemma OldRowStaysLinked(t: Table, id: int, row: Revision, i: int)
    requires id !in t && i in t && RowLinked(t, i)
    ensures RowLinked(t[id := row], i)
  {
  }

  lemma AddKeepsFaithful(z: Codec, t: Table, recorded: Contents, row: Revision, content: Bytes)
    requires Linked(t) && Faithful(z, t, recorded) && Addable(z, t, recorded, row, content)
    ensures var id := NextId(t.Keys); Faithful(z, t[id := row], recorded[id := content])
  {
    var id := NextId(t.Keys);
    var u, r := t[id := row], recorded[id := content];
    forall i | i in u ensures RowFaithful(z, u, r, i) {
      if i in t {
        assert RowLinked(t, i) && RowFaithful(z, t, recorded, i);
      }
    }
  }

  lemma {:induction false} AddKeepsDepth(t: Table, id: int, row: Revision, i: int)
    requires Linked(t) && id !in t && Linked(t[id := row]) && i in t
    ensures Depth(t[id := row], i) == Depth(t, i)
    decreases i
  {
    assert RowLinked(t, i);
    if t[i].base.Some? {
      assert RowLinked(t, t[i].base.value);
      AddKeepsDepth(t, id, row, t[i].base.value);
    }
  }

  lemma AddedDepth(t: Table, id: int, row: Revision)
    requires Linked(t) && id !in t && Linked(t[id := row])
    ensures row.base.Some? ==> row.base.value in t
    ensures Depth(t[id := row], id) == if row.base.None? then 1 else 1 + Depth(t, row.base.value)
  {
    assert RowLinked(t[id := row], id);
    if row.base.Some? {
      AddKeepsDepth(t, id, row, row.base.value);
    }
  }

  /** A delta can be read back exactly when the row it was made against is not the last one
      within the walk limit; an anchor interval above that limit lets this happen. */
  lemma DeltaReadableIff(z: Codec, t: Table, recorded: Contents, row: Revision, content: Bytes)
    requires Linked(t) && Faithful(z, t, recorded) && Addable(z, t, recorded, row, content) && row.base.Some?
    ensures var id, u := NextId(t.Keys), t[NextId(t.Keys) := row];
      Linked(u) && (Reconstruction(z, u, id) == Ok(content) <==> Depth(t, row.base.value) < WALK_LIMIT)
  {
    var id := NextId(t.Keys);
    AddKeepsLinked(z, t, recorded, row, content);
    AddKeepsFaithful(z, t, recorded, row, content);
    AddKeepsDepth(t, id, row, row.base.value);
    ReconstructionExact(z, t[id := row], recorded[id := content], id);
  }

  /** Adding a row to a chain of `n` rows gives a chain of `n + 1`; other chains keep their length. */
  lemma AddChainLengths(t: Table, id: int, row: Revision, f: int, c: int)
    requires id !in t
    ensures var u := t[id := row];
      |ChainRows(u, f, c)| == |ChainRows(t, f, c)| + if row.fileId == f && row.chainId == c then 1 else 0
  {
    var u := t[id := row];
    if row.fileId == f && row.chainId == c {
      assert ChainRows(u, f, c) == ChainRows(t, f, c) + {id};
    } else {
      assert ChainRows(u, f, c) == ChainRows(t, f, c);
    }
  }

  lemma AddKeepsChainsAtMost(t: Table, id: int, row: Revision, n: nat)
    requires id !in t && ChainsAtMost(t, n)
    requires |ChainRows(t, row.fileId, row.chainId)| < n
    ensures ChainsAtMost(t[id := row], n)
  {
    var u := t[id := row];
    forall i | i in u ensures |ChainRows(u, u[i].fileId, u[i].chainId)| <= n {
      AddChainLengths(t, id, row, u[i].fileId, u[i].chainId);
    }
  }

  /** A row that starts a chain finds it empty. */
  lemma FreshChainIsEmpty(t: Table, f: int)
    requires Linked(t)
    ensures ChainRows(t, f, NextId(t.Keys)) == {}
  {
    forall i | i in t ensures t[i].chainId < NextId(t.Keys) {
      assert RowLinked(t, i);
    }
  }

  // ------------------------------------------------------------------- deletes

  /** `u` is `t` without some whole chains. */
  ghost predicate WholeChainsDropped(t: Table, u: Table) {
    && u.Keys <= t.Keys
    && (forall i :: i in u ==> u[i] == t[i])
    && (forall i, j :: i in t && j in t && SameChain(t, i, j) ==> (i in u <==> j in u))
  }

  /** What is recorded for the rows that remain is what was recorded before. */
  function Restrict(recorded: Contents, keys: set<int>): (r: Contents)
    ensures r.Keys == recorded.Keys * keys
    ensures forall i :: i in r ==> r[i] == recorded[i]
  {
    map i | i in recorded && i in keys :: recorded[i]
  }

  lemma DropKeepsLinked(t: Table, u: Table)
    requires Linked(t) && WholeChainsDropped(t, u)
    ensures Linked(u)
  {
    forall i | i in u ensures RowLinked(u, i) {
      assert RowLinked(t, i);
      assert SameChain(t, t[i].chainId, i);
      if t[i].base.Some? {
        assert SameChain(t, t[i].base.value, i);
      }
    }
    forall i, j | i in u && j in u ensures InOrder(u, i, j) {
      assert InOrder(t, i, j);
    }
  }

  lemma DropKeepsInvariants(z: Codec, t: Table, u: Table, recorded: Contents)
    requires Linked(t) && Faithful(z, t, recorded) && WholeChainsDropped(t, u)
    ensures Linked(u) && Faithful(z, u, Restrict(recorded, u.Keys))
  {
    DropKeepsLinked(t, u);
    var r := Restrict(recorded, u.Keys);
    forall i | i in u ensures RowFaithful(z, u, r, i) {
      assert RowLinked(t, i) && RowFaithful(z, t, recorded, i) && RowLinked(u, i);
    }
  }

  /** Dropping whole chains changes no walk that remains. */
  lemma {:induction false} DropKeepsDepth(t: Table, u: Table, i: int)
    requires Linked(t) && Linked(u) && WholeChainsDropped(t, u) && i in u
    ensures Depth(u, i) == Depth(t, i)
    decreases i
  {
    assert RowLinked(u, i);
    if u[i].base.Some? {
      assert RowLinked(u, u[i].base.value);
      DropKeepsDepth(t, u, u[i].base.value);
    }
  }

  lemma DropKeepsChainsAtMost(t: Table, u: Table, n: nat)
    requires WholeChainsDropped(t, u) && ChainsAtMost(t, n)
    ensures ChainsAtMost(u, n)
  {
    forall i | i in u ensures |ChainRows(u, u[i].fileId, u[i].chainId)| <= n {
      assert u[i] == t[i];
      assert forall j :: j in u ==> u[j] == t[j];
      SubsetCard(ChainRows(u, u[i].fileId, u[i].chainId), ChainRows(t, t[i].fileId, t[i].chainId));
    }
  }

  lemma DropComposes(t: Table, u: Table, v: Table)
    requires WholeChainsDropped(t, u) && WholeChainsDropped(u, v)
    ensures WholeChainsDropped(t, v)
  {
    forall i, j | i in t && j in t && SameChain(t, i, j) ensures i in v <==> j in v {
      if i in u {
        assert SameChain(u, i, j);
      }
    }
  }

  function DropChain(t: Table, fileId: int, chainId: int): (u: Table)
    ensures WholeChainsDropped(t, u)
    ensures u.Keys == t.Keys - ChainRows(t, fileId, chainId)
  {
    map i | i in t && !(t[i].fileId == fileId && t[i].chainId == chainId) :: t[i]
  }

  /** Dropping one chain removes that chain id from its file and touches no other file. */
  lemma DropChainChains(t: Table, fileId: int, chainId: int, f: int)
    ensures ChainsOf(DropChain(t, fileId, chainId), f)
         == if f == fileId then ChainsOf(t, f) - {chainId} else ChainsOf(t, f)
  {
    var u := DropChain(t, fileId, chainId);
    forall c | c in ChainsOf(t, f) && !(f == fileId && c == chainId) ensures c in ChainsOf(u, f) {
      var i :| i in t && t[i].fileId == f && t[i].chainId == c;
      assert i in u;
    }
  }

  /** In a linked table a chain id belongs to one file. */
  lemma ChainOwner(t: Table, f: int, c: int)
    requires Linked(t) && c in ChainsOf(t, f)
    ensures c in t && t[c].fileId == f && t[c].chainId == c
  {
    var i :| i in t && t[i].fileId == f && t[i].chainId == c;
    assert RowLinked(t, i);
  }

  // ------------------------------------------------------------- payload sizes

  function PayloadBytes(t: Table, ids: set<int>): nat
    requires ids <= t.Keys
    decreases |ids|
  {
    if ids == {} then 0 else
      var m := MaxOf(ids);
      |t[m].payload| + PayloadBytes(t, ids - {m})
  }

  lemma MaxOfUnique(s: set<int>, m: int)
    requires m in s && forall y :: y in s ==> y <= m
    ensures MaxOf(s) == m
  {
  }

  lemma {:induction false} PayloadSplits(t: Table, ids: set<int>, part: set<int>)
    requires part <= ids <= t.Keys
    ensures PayloadBytes(t, ids) == PayloadBytes(t, ids - part) + PayloadBytes(t, part)
    decreases |ids|
  {
    if ids == {} {
      assert part == {} && ids - part == {};
    } else {
      var m := MaxOf(ids);
      var rest := ids - {m};
      if m in part {
        PayloadSplits(t, rest, part - {m});
        MaxOfUnique(part, m);
        assert rest - (part - {m}) == ids - part;
      } else {
        PayloadSplits(t, rest, part);
        MaxOfUnique(ids - part, m);
        assert rest - part == ids - part - {m};
      }
    }
  }

  lemma {:induction false} PayloadSameRows(t: Table, u: Table, ids: set<int>)
    requires ids <= t.Keys && ids <= u.Keys
    requires forall i :: i in ids ==> t[i].payload == u[i].payload
    ensures PayloadBytes(t, ids) == PayloadBytes(u, ids)
    decreases |ids|
  {
    if ids != {} {
      PayloadSameRows(t, u, ids - {MaxOf(ids)});
    }
  }

  lemma ZeroBytesMeansEmptyPayload(t: Table, ids: set<int>)
    requires ids <= t.Keys && ids != {} && PayloadBytes(t, ids) == 0
    ensures exists i :: i in ids && t[i].payload == []
  {
    assert t[MaxOf(ids)].payload == [];
  }

  /** What dropping a chain frees is exactly what the table shrinks by. */
  lemma DropChainFrees(t: Table, fileId: int, chainId: int)
    ensures var u := DropChain(t, fileId, chainId);
      PayloadBytes(t, t.Keys) == PayloadBytes(u, u.Keys) + PayloadBytes(t, ChainRows(t, fileId, chainId))
  {
    var u := DropChain(t, fileId, chainId);
    PayloadSplits(t, t.Keys, ChainRows(t, fileId, chainId));
    PayloadSameRows(t, u, u.Keys);
  }

  // --------------------------------------------------------- newest and oldest

  function Above(s: set<int>, c: int): set<int> {
    set d | d in s && d > c
  }

  /** The `k` largest members: those with fewer than `k` members above them. */
  ghost function Newest(s: set<int>, k: nat): set<int> {
    set c | c in s && |Above(s, c)| < k
  }

  /** SELECT DISTINCT ... ORDER BY ... DESC LIMIT k. */
  function Descending(s: set<int>, k: nat): (r: seq<int>)
    ensures forall c :: c in r ==> c in s
    ensures forall i, j :: 0 <= i < j < |r| ==> r[i] > r[j]
    ensures |r| == if k <= |s| then k else |s|
    decreases k
  {
    if k == 0 || s == {} then []
    else
      var rest := Descending(s - {MaxOf(s)}, k - 1);
      assert forall i :: 0 <= i < |rest| ==> rest[i] in s - {MaxOf(s)};
      [MaxOf(s)] + rest
  }

  lemma {:induction false} DescendingIsNewest(s: set<int>, k: nat, c: int)
    requires c in s
    ensures c in Descending(s, k) <==> |Above(s, c)| < k
    decreases k
  {
    if k != 0 {
      var m := MaxOf(s);
      if c == m {
        assert Above(s, c) == {};
      } else {
        DescendingIsNewest(s - {m}, k - 1, c);
        assert Above(s, c) == Above(s - {m}, c) + {m};
      }
    }
  }

  /** The last of the `k` largest is the threshold below which everything goes. */
  lemma NewestByThreshold(s: set<int>, k: nat, c: int)
    requires 0 < k <= |s| && c in s
    ensures c in Newest(s, k) <==> c >= Descending(s, k)[k - 1]
  {
    var r := Descending(s, k);
    var last := r[k - 1];
    DescendingIsNewest(s, k, c);
    DescendingIsNewest(s, k, last);
    if c >= last {
      SubsetCard(Above(s, c), Above(s, last));
    }
  }

  lemma NewestCount(s: set<int>, k: nat)
    ensures |Newest(s, k)| == if k <= |s| then k else |s|
  {
    var r := Descending(s, k);
    forall c | c in s ensures c in Newest(s, k) <==> c in r {
      DescendingIsNewest(s, k, c);
    }
    assert Newest(s, k) == set c | c in r;
    DistinctCount(r);
  }

  lemma {:induction false} DistinctCount(r: seq<int>)
    requires forall i, j :: 0 <= i < j < |r| ==> r[i] > r[j]
    ensures |set c | c in r| == |r|
  {
    if r != [] {
      var rest := r[..|r| - 1];
      DistinctCount(rest);
      var last := r[|r| - 1];
      assert forall c :: c in r <==> c in rest || c == last;
      assert (set c | c in r) == (set c | c in rest) + {last};
      assert last !in rest;
    }
  }
}
