/**
 The aggregate quota check of a multipart upload: how far disk usage can rise while the files are
 written one after another, computed in int64 with a capped shrink credit.
 */
module UploadQuota {
  import opened Common

  /** A file of the request: where it goes and how large it is. */
  datatype Part = Part(path: Path, size: int64)

  datatype Path = Path(text: string)

  // ------------------------------------------------------------ what is on disk

  type Disk = map<Path, int>

  function SizeOn(disk: Disk, path: Path): int {
    if path in disk then disk[path] else 0
  }

  /** The bytes in use. */
  ghost function Usage(disk: Disk): int
    decreases |disk|
  {
    if disk == map[] then 0
    else
      var path :| path in disk;
      disk[path] + Usage(disk - {path})
  }

  lemma {:induction false} UsageWithout(disk: Disk, path: Path)
    requires path in disk
    ensures Usage(disk) == disk[path] + Usage(disk - {path})
    decreases |disk|
  {
    var first :| first in disk && Usage(disk) == disk[first] + Usage(disk - {first});
    if first != path {
      UsageWithout(disk - {first}, path);
      UsageWithout(disk - {path}, first);
      assert disk - {first} - {path} == disk - {path} - {first};
    }
  }

  /** Writing a file changes the usage by the difference of the sizes. */
  lemma UsageAfterWrite(disk: Disk, path: Path, size: int)
    ensures Usage(disk[path := size]) == Usage(disk) + size - SizeOn(disk, path)
  {
    var after := disk[path := size];
    UsageWithout(after, path);
    if path in disk {
      UsageWithout(disk, path);
      assert after - {path} == disk - {path};
    } else {
      assert after - {path} == disk;
    }
  }

  /** The disk after the first `k` parts were written in order. */
  ghost function Written(disk: Disk, parts: seq<Part>, k: nat): Disk
    requires k <= |parts|
  {
    if k == 0 then disk else Written(disk, parts, k - 1)[parts[k - 1].path := parts[k - 1].size as int]
  }

  /** How much more is in use after the first `k` parts than before the request. */
  ghost function GrowthAfter(disk: Disk, parts: seq<Part>, k: nat): int
    requires k <= |parts|
  {
    Usage(Written(disk, parts, k)) - Usage(disk)
  }

  lemma GrowthStep(disk: Disk, parts: seq<Part>, k: nat)
    requires k < |parts|
    ensures GrowthAfter(disk, parts, k + 1)
         == GrowthAfter(disk, parts, k) + parts[k].size as int - SizeOn(Written(disk, parts, k), parts[k].path)
    ensures forall p :: SizeOn(Written(disk, parts, k + 1), p) ==
                        if p == parts[k].path then parts[k].size as int else SizeOn(Written(disk, parts, k), p)
  {
    UsageAfterWrite(Written(disk, parts, k), parts[k].path, parts[k].size as int);
  }

  /** The highest growth over any number of parts already written; never below zero. */
  ghost function Peak(disk: Disk, parts: seq<Part>, k: nat): int
    requires k <= |parts|
  {
    if k == 0 then 0
    else
      var before, now := Peak(disk, parts, k - 1), GrowthAfter(disk, parts, k);
      if now > before then now else before
  }

  lemma {:induction false} PeakIsHighest(disk: Disk, parts: seq<Part>, k: nat)
    requires k <= |parts|
    ensures forall j :: 0 <= j <= k ==> GrowthAfter(disk, parts, j) <= Peak(disk, parts, k)
    ensures exists j :: 0 <= j <= k && GrowthAfter(disk, parts, j) == Peak(disk, parts, k)
  {
    if k == 0 {
      assert GrowthAfter(disk, parts, 0) == 0;
    } else {
      PeakIsHighest(disk, parts, k - 1);
      var j :| 0 <= j <= k - 1 && GrowthAfter(disk, parts, j) == Peak(disk, parts, k - 1);
      if GrowthAfter(disk, parts, k) > Peak(disk, parts, k - 1) {
        assert GrowthAfter(disk, parts, k) == Peak(disk, parts, k);
      } else {
        assert GrowthAfter(disk, parts, j) == Peak(disk, parts, k);
      }
    }
  }

  ghost function TotalSize(parts: seq<Part>, k: nat): int
    requires k <= |parts|
  {
    if k == 0 then 0 else TotalSize(parts, k - 1) + parts[k - 1].size as int
  }

  lemma {:induction false} TotalGrows(parts: seq<Part>, j: nat, k: nat)
    requires j <= k <= |parts| && forall i :: 0 <= i < |parts| ==> parts[i].size >= 0
    ensures 0 <= TotalSize(parts, j) <= TotalSize(parts, k)
    decreases k
  {
    if j < k {
      TotalGrows(parts, j, k - 1);
    } else if 0 < k {
      TotalGrows(parts, k - 1, k - 1);
    }
  }

  // -------------------------------------------------------------- the two loops

  /** The size check of the targets: accepts exactly when no size is negative and the sizes add up
      to at most the limit; the subtraction keeps every step within int64. */
  method AcceptSizes(parts: seq<Part>, limit: int64) returns (ok: bool)
    requires limit >= 0
    ensures ok <==> (forall i :: 0 <= i < |parts| ==> parts[i].size >= 0) && TotalSize(parts, |parts|) <= limit as int
  {
    var total: int64 := 0;
    for k := 0 to |parts|
      invariant 0 <= total <= limit && total as int == TotalSize(parts, k)
      invariant forall i :: 0 <= i < k ==> parts[i].size >= 0
    {
      if parts[k].size < 0 || parts[k].size > limit - total {
        if forall i :: 0 <= i < |parts| ==> parts[i].size >= 0 {
          TotalGrows(parts, k + 1, |parts|);
        }
        return false;
      }
      total := total + parts[k].size;
    }
    ok := true;
  }

  /** Sizes on disk are int64 values and not negative. */
  ghost predicate Sizes(disk: Disk) {
    forall p :: p in disk ==> 0 <= disk[p] <= MAX_INT64
  }

  /**
   The quota simulation. The credit from shrinking files is capped at the request limit, which
   keeps all arithmetic in int64; `growth` is still exactly the highest rise in disk usage at any
   point of the sequential overwrites.
   */
  method PlanGrowth(disk: Disk, parts: seq<Part>, limit: int64) returns (growth: int64)
    requires limit >= 0 && Sizes(disk)
    requires forall i :: 0 <= i < |parts| ==> parts[i].size >= 0
    requires TotalSize(parts, |parts|) <= limit as int
    ensures growth as int == Peak(disk, parts, |parts|)
  {
    growth := 0;
    var projected: int64 := 0;
    var planned: map<Path, int64> := map[];
    for k := 0 to |parts|
      invariant -limit <= projected <= growth <= limit
      invariant growth as int == Peak(disk, parts, k)
      invariant 0 <= TotalSize(parts, k) <= limit as int
      invariant projected as int == GrowthAfter(disk, parts, k) ||
        GrowthAfter(disk, parts, k) <= projected as int <= TotalSize(parts, k) - limit as int
      invariant projected as int <= TotalSize(parts, k)
      invariant forall p ::
        SizeOn(Written(disk, parts, k), p) == if p in planned then planned[p] as int else SizeOn(disk, p)
      invariant forall p :: p in planned ==> planned[p] >= 0
    {
      var part := parts[k];
      TotalGrows(parts, k + 1, |parts|);
      GrowthStep(disk, parts, k);
      var oldSize := SizeOn(disk, part.path) as int64;
      if part.path in planned {
        oldSize := planned[part.path];
      }
      assert oldSize as int == SizeOn(Written(disk, parts, k), part.path);
      planned := planned[part.path := part.size];
      var delta := part.size - oldSize;
      if delta < 0 && projected < -limit - delta {
        projected := -limit;
      } else {
        projected := projected + delta;
      }
      if projected > growth {
        growth := projected;
      }
    }
  }
}
