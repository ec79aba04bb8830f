/**
 A revision that is lost: with an anchor interval above the walk limit a chain grows to 1000 rows,
 and the next delta is stored although nothing can read it back.
 */
module HistoryDeepChain {
  import opened Common
  import opened HistoryTable
  import opened HistoryStore

  const FRAME: Bytes := [0, 0, 0, 0, 0, 0, 0, 0, 0, 0, 0, 0, 0, 0, 0, 0, 0, 0, 0, 0]

  /** Snapshots cost twenty bytes of framing; deltas are as long as what they encode. */
  function Framed(): Codec {
    Codec(
      (content, level) => Some(content + FRAME),
      payload => if |payload| < 20 then None else Some(payload[..|payload| - 20]),
      (base, content, level) => Some(content),
      (payload, base) => Some(payload),
      content => if content == [1] then "one" else "zero")
  }

  /** The file alternates between two contents. */
  function ContentOf(i: int): Bytes {
    [i % 2]
  }

  function RowOf(i: int): Revision {
    var z := Framed();
    if i == 1 then Revision(1, 1, 1, "", None, ContentOf(1) + FRAME, z.hash(ContentOf(1)), 1)
    else Revision(1, 1, 1, "", Some(i - 1), ContentOf(i), z.hash(ContentOf(i)), i)
  }

  function Chain(n: nat): Table {
    map i | 1 <= i <= n :: RowOf(i)
  }

  function Contents(n: nat): map<int, Bytes> {
    map i | 1 <= i <= n :: ContentOf(i)
  }

  lemma FramedIsLawful()
    ensures Framed().Lawful()
  {
    forall content: Bytes, level: int
      ensures Framed().decodeSnapshot(Framed().encodeSnapshot(content, level).value) == Some(content)
    {
      assert (content + FRAME)[..|content|] == content;
    }
  }

  lemma ChainIsLinked(n: nat)
    ensures Linked(Chain(n))
  {
    var t := Chain(n);
    forall i | i in t ensures RowLinked(t, i) {
    }
    forall i, j | i in t && j in t ensures InOrder(t, i, j) {
    }
  }

  lemma ChainIsFaithful(n: nat)
    ensures Faithful(Framed(), Chain(n), Contents(n))
  {
    var t, r := Chain(n), Contents(n);
    forall i | i in t ensures RowFaithful(Framed(), t, r, i) {
      assert (ContentOf(i) + FRAME)[..1] == ContentOf(i);
    }
  }

  lemma {:induction false} ChainDepth(n: nat, i: int)
    requires 1 <= i <= n && Linked(Chain(n))
    ensures Depth(Chain(n), i) == i
    decreases i
  {
    if i > 1 {
      ChainDepth(n, i - 1);
    }
  }

  lemma {:induction false} ChainLength(n: nat)
    ensures |ChainRows(Chain(n), 1, 1)| == n
  {
    if n == 0 {
      assert ChainRows(Chain(0), 1, 1) == {};
    } else {
      ChainLength(n - 1);
      assert Chain(n) == Chain(n - 1)[n := RowOf(n)];
      AddChainLengths(Chain(n - 1), n, RowOf(n), 1, 1);
    }
  }

  lemma FullChainIsTooDeep(n: nat, cfg: Config)
    requires n == WALK_LIMIT < cfg.anchorInterval <= MAX_INT64 && Linked(Chain(n))
    ensures TooDeep(Framed(), Chain(n), Contents(n), 1, ContentOf(n + 1), cfg)
  {
    ChainLength(n);
    ChainDepth(n, n);
    assert Latest(Chain(n), 1) == Some(n) by {
      assert n in Chain(n) && Chain(n)[n].fileId == 1;
    }
    DeltasAreSmall(n, cfg.zstdLevel);
  }

  lemma DeltasAreSmall(n: nat, level: int)
    ensures PrefersDelta(Framed(), ContentOf(n), ContentOf(n + 1), level)
  {
  }

  /** After 1000 changes the next one meets every condition for being lost. */
  lemma NextChangeIsTooDeep(cfg: Config)
    requires WALK_LIMIT < cfg.anchorInterval <= MAX_INT64
    ensures Framed().Lawful() && Linked(Chain(1000)) && Faithful(Framed(), Chain(1000), Contents(1000))
    ensures Framed().hash(ContentOf(1001)) != Chain(1000)[1000].hash
    ensures TooDeep(Framed(), Chain(1000), Contents(1000), 1, ContentOf(1001), cfg)
  {
    FramedIsLawful();
    ChainIsLinked(1000);
    ChainIsFaithful(1000);
    FullChainIsTooDeep(1000, cfg);
  }

  /** The row it stores cannot be read back, although it was checked to decode when it was made. */
  lemma LastRevisionIsLost()
    ensures Linked(Chain(1001)) && Faithful(Framed(), Chain(1001), Contents(1001))
    ensures Framed().EncodeDelta(ContentOf(1000), ContentOf(1001), 0) == Some(Chain(1001)[1001].payload)
    ensures Reconstruction(Framed(), Chain(1001), 1001) == Err(NoAnchor)
    ensures forall i :: 1 <= i <= 1000 ==> Reconstruction(Framed(), Chain(1001), i) == Ok(ContentOf(i))
  {
    ChainIsLinked(1001);
    ChainIsFaithful(1001);
    ChainDepth(1001, 1001);
    forall i | 1 <= i <= 1000 ensures Reconstruction(Framed(), Chain(1001), i) == Ok(ContentOf(i)) {
      ChainDepth(1001, i);
      ReconstructionExact(Framed(), Chain(1001), Contents(1001), i);
    }
  }
}
