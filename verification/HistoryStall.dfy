/**
 A store on which server-wide pruning stops early: its oldest chain holds no bytes, so dropping it
 frees nothing and the loop takes that for the end.
 */
module HistoryStall {
  import opened Common
  import opened HistoryTable
  import opened HistoryStore

  /** Contents are stored as they are. */
  function Plain(): Codec {
    Codec(
      (content, level) => Some(content),
      payload => Some(payload),
      (base, content, level) => Some(content),
      (payload, base) => Some(payload),
      content => if |content| == 0 then "none" else if |content| == 1 then "one" else "more")
  }

  function Snapshot(id: int, content: Bytes): Revision {
    Revision(1, id, |content|, "", None, content, Plain().hash(content), id)
  }

  /** Three snapshots of one file: nothing, then two bytes, then one. */
  function Rows(): Table {
    map[1 := Snapshot(1, []), 2 := Snapshot(2, [0, 0]), 3 := Snapshot(3, [0])]
  }

  function Contents(): map<int, Bytes> {
    map[1 := [], 2 := [0, 0], 3 := [0]]
  }

  lemma RowsAreFaithful()
    ensures Plain().Lawful() && Faithful(Plain(), Rows(), Contents())
  {
    var t, r := Rows(), Contents();
    forall i | i in t ensures RowFaithful(Plain(), t, r, i) {
      assert i == 1 || i == 2 || i == 3;
    }
  }

  lemma RowsHoldThreeBytes()
    ensures PayloadBytes(Rows(), Rows().Keys) == 3
  {
    var t := Rows();
    assert t.Keys == {1, 2, 3};
    PayloadOfOne(t, 1);
    PayloadOfOne(t, 2);
    PayloadOfOne(t, 3);
    PayloadSplits(t, {2, 3}, {3});
    assert {2, 3} - {3} == {2};
    PayloadSplits(t, {1, 2, 3}, {1});
    assert {1, 2, 3} - {1} == {2, 3};
  }

  lemma RowsAreAlone()
    ensures AllAlone(Rows()) && Rows().Keys == {1, 2, 3} && Rows()[1].payload == []
  {
  }

  lemma NewestAlone(t: Table, n: int)
    requires AllAlone(t) && n in t && forall i :: i in t ==> i <= n
    ensures Latest(t, 1) == Some(n)
  {
    assert t[n].fileId == 1;
  }

  /** The store after the third snapshot was recorded. */
  method ThreeSnapshots() returns (store: Store)
    ensures fresh(store) && store.Valid() && Latest(store.revisions, 1) == Some(3)
    ensures AllAlone(store.revisions) && store.revisions.Keys == {1, 2, 3}
    ensures store.codec == Plain() && store.files == map[1 := "file"]
    ensures store.recorded[3] == [0] && store.revisions[3].hash == "one"
    ensures store.revisions[1].payload == [] && PayloadBytes(store.revisions, store.revisions.Keys) == 3
  {
    RowsAreFaithful();
    RowsAreAlone();
    RowsHoldThreeBytes();
    AloneIsLinked(Rows());
    NewestAlone(Rows(), 3);
    store := new Store(Plain());
    store.files, store.revisions, store.recorded := map[1 := "file"], Rows(), Contents();
  }

  /** Pruning stops early on any such store with an empty oldest chain. */
  method PruneAlone(store: Store, pc: Option<int>, m: int, i: int, j: int, cfg: Config)
    requires store.Valid() && AllAlone(store.revisions) && cfg.perServerBudget > 0 && pc != Some(m)
    requires m in store.revisions && i in store.revisions && j in store.revisions && m < i < j
    requires (forall k :: k in store.revisions ==> m <= k) && store.revisions[m].payload == []
    requires PayloadBytes(store.revisions, store.revisions.Keys) > cfg.perServerBudget
    modifies store
    ensures store.Valid() && !Satisfied(store.revisions, 1, pc, cfg.perServerBudget)
  {
    EmptyOldestStalls(store.revisions, pc, m, i, j, cfg.perServerBudget);
    store.PruneServerHistory(1, pc, cfg);
  }

  /** Pruning this store to one byte, with the newest chain protected, leaves it over budget although
      a chain could still go. */
  method PruneStalls() returns (store: Store)
    ensures store.Valid() && !Satisfied(store.revisions, 1, Some(3), 1)
  {
    store := ThreeSnapshots();
    PruneAlone(store, Some(3), 1, 2, 3, Config(0, 1, 3, 0, 1));
  }

  /** Recording a content with the digest of the newest one does return an id that reads back as
      something else. */
  method EqualDigest() returns (store: Store, r: Result<int, Error>)
    ensures store.Valid() && r == Ok(3) && Reconstruction(store.codec, store.revisions, 3) != Ok([1])
  {
    store := ThreeSnapshots();
    assert FileIdOf(store.files, "file") == Some(1);
    assert store.LatestOf("file") == Some(3);
    r := store.Record("file", [0], [1], "", Config(0, 1, 3, 0, 0), 4, true);
  }
}
