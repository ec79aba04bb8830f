/**
 Appending to an upload: an offset-checked PATCH that either adds its whole body to the target or
 rolls back. A request that gets past its gates holds the target's upload lock until it ends.
 */
module UploadAppend {
  import opened Common

  const COPY_BUFFER := 65536
  const MAX_LIMIT_MB: int := MAX_INT64 / (1024 * 1024)

  /** The HTTP status a request ends with. */
  datatype Reply = Done | NotFound | TooMany | Conflict | TooLarge | NoSpace | IdleTimeout | Internal

  datatype CopyError = DiskSpace | Idle | Other

  /** What the registries said: the token is bound to this target, the upload is admitted, and the
      target's lock was free. */
  datatype Gates = Gates(bound: bool, admitted: bool, locked: bool)

  /** What the file system and the connection do during a request: whether there is space, whether
      the file can be opened, after how many bytes the copy fails and how, whether the file can be
      truncated back, and whether it can be closed and handed over. */
  datatype Outside = Outside(
    space: bool, created: bool, copyError: Option<CopyError>, copied: nat, truncated: bool, finalized: bool)
  {
    predicate Calm() {
      space && created && copyError.None? && truncated && finalized
    }
  }

  /** `contentLength` is negative when the request does not announce it. */
  datatype Request = Request(
    gates: Gates, offset: int64, uploadLength: Option<int64>, complete: bool, contentLength: int64, body: Bytes,
    outside: Outside)

  /** Failures that leave more behind than the reply says. */
  datatype Fault = NoFault | NotTruncated | NotFinalized

  /** The configured limit in megabytes, or None when it is not configured correctly. */
  function UploadLimit(megabytes: int64): (r: Option<int64>)
    ensures r.Some? <==> 0 < megabytes as int <= MAX_LIMIT_MB
    ensures r.Some? ==> 1024 * 1024 <= r.value as int < MAX_INT64 && r.value as int == megabytes as int * 1048576
  {
    if megabytes <= 0 || megabytes as int > MAX_LIMIT_MB then None else Some(megabytes * 1024 * 1024)
  }

  /** How much may still be added to `length` bytes. */
  function Allowed(req: Request, length: int, maxSize: int): int {
    if req.uploadLength.Some? && req.uploadLength.value as int < maxSize then req.uploadLength.value as int - length
    else maxSize - length
  }

  /** What becomes of a body once `allowed` more bytes fit. */
  function BodyVerdict(req: Request, length: int, allowed: int): Reply {
    if |req.body| > allowed then TooLarge
    else if req.complete && req.uploadLength.Some? && length + |req.body| != req.uploadLength.value as int then Conflict
    else Done
  }

  /** The reply to a request on a target of `length` bytes when nothing outside fails. */
  function Verdict(req: Request, regular: bool, length: int, maxSize: int): Reply {
    var allowed := Allowed(req, length, maxSize);
    if req.uploadLength.Some? && req.uploadLength.value as int > maxSize then TooLarge
    else if !req.gates.bound then NotFound
    else if !req.gates.admitted then TooMany
    else if !req.gates.locked then Conflict
    else if !regular then NotFound
    else if req.offset as int != length || allowed < 0 then Conflict
    else if req.contentLength as int > allowed then TooLarge
    else BodyVerdict(req, length, allowed)
  }

  /** Whether the request gets as far as its copy when the target has `length` bytes. */
  predicate Copies(req: Request, regular: bool, length: int, maxSize: int) {
    && !(req.uploadLength.Some? && req.uploadLength.value as int > maxSize)
    && req.gates.bound && req.gates.admitted && req.gates.locked && regular
    && req.offset as int == length && 0 <= Allowed(req, length, maxSize)
    && req.contentLength as int <= Allowed(req, length, maxSize)
    && req.outside.space && req.outside.created
  }

  /** How much the copy writes: to the end of the body, one byte too far, or up to its failure. */
  function CopiedBytes(body: Bytes, limit: int, outside: Outside): int {
    var most := if limit < |body| then limit else |body|;
    if outside.copyError.Some? && outside.copied < most then outside.copied else most
  }

  /** What a copy leaves of the body. */
  function Remains(req: Request, length: int, allowed: int): Bytes
    requires 0 <= allowed
  {
    if req.outside.copyError.None? && BodyVerdict(req, length, allowed) == Done then req.body
    else if req.outside.truncated then []
    else req.body[..CopiedBytes(req.body, allowed + 1, req.outside)]
  }

  /** What a request adds to a target of `length` bytes, whatever it answers. */
  function Leaves(req: Request, regular: bool, length: int, maxSize: int): Bytes {
    if Copies(req, regular, length, maxSize) then Remains(req, length, Allowed(req, length, maxSize)) else []
  }

  class Target {
    var contents: Bytes
    var regular: bool

    constructor (contents: Bytes, regular: bool)
      ensures this.contents == contents && this.regular == regular
    {
      this.contents, this.regular := contents, regular;
    }

    /** io.CopyBuffer from the body, limited to one byte more than is allowed. How the body splits
        into reads is not determined. */
    method Copy(body: Bytes, limit: int64, outside: Outside) returns (written: int64, err: Option<CopyError>)
      requires 0 < limit && |contents| + limit as int <= MAX_INT64
      modifies this`contents
      ensures 0 <= written <= limit && written as int <= |body|
      ensures contents == old(contents) + body[..written]
      ensures written as int == CopiedBytes(body, limit as int, outside) && err == outside.copyError
    {
      var end := CopiedBytes(body, limit as int, outside);
      written, err := 0, outside.copyError;
      assert body[..0] == [];
      while (written as int) < end
        invariant 0 <= written as int <= end
        invariant contents == old(contents) + body[..written]
        decreases end - written as int
      {
        var n: int :| 1 <= n <= end - written as int && n <= COPY_BUFFER;
        ghost var at := written as int;
        contents := contents + body[written..written as int + n];
        assert body[..at + n] == body[..at] + body[at..at + n];
        written := written + n as int64;
      }
    }

    /** Truncates back to the length before the copy; the error is ignored. */
    method Rollback(length: int64, outside: Outside)
      requires 0 <= length as int <= |contents|
      modifies this`contents
      ensures contents == if outside.truncated then old(contents)[..length] else old(contents)
    {
      if outside.truncated {
        contents := contents[..length];
      }
    }

    /**
     One PATCH. `reported` is the Upload-Offset header. A reply of Done means the body was appended
     whole. Any other reply leaves the contents as they were, except that a failed truncate leaves
     a part of the body, and a failed close or chown all of it. When nothing outside fails the reply is
     the verdict on the request.
     */
    method Patch(req: Request, maxSize: int64) returns (reply: Reply, reported: Option<int64>, ghost fault: Fault)
      requires 0 < maxSize as int < MAX_INT64 && |contents| <= MAX_INT64
      requires req.offset >= 0 && (req.uploadLength.Some? ==> 0 <= req.uploadLength.value)
      modifies this`contents
      ensures reply.Done? ==>
        contents == old(contents) + req.body && reported.Some? && reported.value as int == |contents|
      ensures reply.Done? ==> |contents| <= maxSize as int && req.offset as int == |old(contents)|
      ensures reply.Done? && req.uploadLength.Some? ==> |contents| <= req.uploadLength.value as int
      ensures reply.Done? && req.uploadLength.Some? && req.complete ==> |contents| == req.uploadLength.value as int
      ensures !reply.Done? ==> match fault
        case NoFault => contents == old(contents)
        case NotTruncated =>
          !req.outside.truncated && exists n :: 0 <= n <= |req.body| && contents == old(contents) + req.body[..n]
        case NotFinalized =>
          && !req.outside.finalized && reply == Internal
          && contents == old(contents) + req.body && |contents| <= maxSize as int
      ensures reply.Done? || req.outside.Calm() ==> fault.NoFault?
      ensures reply.Done? || req.outside.Calm() ==> reply == Verdict(req, regular, |old(contents)|, maxSize as int)
      ensures Verdict(req, regular, |old(contents)|, maxSize as int) != Done ==> !reply.Done?
      ensures contents == old(contents) + Leaves(req, regular, |old(contents)|, maxSize as int)
      ensures reported.Some? && !reply.Done? ==> reported.value as int == |old(contents)|
      ensures req.offset as int != |old(contents)| ==>
        fault.NoFault? && reply == Verdict(req, regular, |old(contents)|, maxSize as int)
      ensures |contents| <= MAX_INT64
    {
      reported, fault := None, NoFault;
      if req.uploadLength.Some? && req.uploadLength.value > maxSize {
        return TooLarge, reported, fault;
      }
      if !req.gates.bound {
        return NotFound, reported, fault;
      }
      if !req.gates.admitted {
        return TooMany, reported, fault;
      }
      if !req.gates.locked {
        return Conflict, reported, fault;
      }
      if !regular {
        return NotFound, reported, fault;
      }
      var current := |contents| as int64;
      reported := Some(current);
      if req.offset != current {
        return Conflict, reported, fault;
      }
      if current > maxSize ||
        (req.uploadLength.Some? && (req.uploadLength.value < current || req.offset > req.uploadLength.value))
      {
        return Conflict, reported, fault;
      }
      var allowed := maxSize - current;
      if req.uploadLength.Some? && req.uploadLength.value - current < allowed {
        allowed := req.uploadLength.value - current;
      }
      if req.contentLength >= 0 && req.contentLength > allowed {
        return TooLarge, reported, fault;
      }
      if !req.outside.space {
        return NoSpace, reported, fault;
      }
      if !req.outside.created {
        return Internal, reported, fault;
      }
      reply, reported, fault := AppendBody(req, current, allowed);
    }

    /** The copy and what follows it. */
    method AppendBody(req: Request, current: int64, allowed: int64)
      returns (reply: Reply, reported: Option<int64>, ghost fault: Fault)
      requires current as int == |contents| && 0 <= allowed && current as int + allowed as int < MAX_INT64
      modifies this`contents
      ensures reply.Done? ==>
        contents == old(contents) + req.body && reported.Some? && reported.value as int == |contents|
      ensures reply.Done? || req.outside.Calm() ==> fault.NoFault?
      ensures reply.Done? || (req.outside.copyError.None? && req.outside.finalized) ==>
        reply == BodyVerdict(req, current as int, allowed as int)
      ensures !reply.Done? ==> reported == Some(current)
      ensures contents == old(contents) + Remains(req, current as int, allowed as int)
      ensures !reply.Done? ==> match fault
        case NoFault => contents == old(contents)
        case NotTruncated =>
          !req.outside.truncated && exists n :: 0 <= n <= |req.body| && contents == old(contents) + req.body[..n]
        case NotFinalized =>
          && !req.outside.finalized && reply == Internal
          && contents == old(contents) + req.body && |contents| <= current as int + allowed as int
      ensures |contents| <= MAX_INT64
    {
      reported, fault := Some(current), NoFault;
      var written, err := Copy(req.body, allowed + 1, req.outside);
      assert contents[..current] == old(contents);
      var length := current as int + written as int;
      var wrong := req.complete && req.uploadLength.Some? && length != req.uploadLength.value as int;
      if err.Some? || written > allowed || wrong {
        Rollback(current, req.outside);
        fault := if req.outside.truncated then NoFault else NotTruncated;
        reply :=
          if err == Some(DiskSpace) then NoSpace
          else if written > allowed then TooLarge
          else if err == Some(Idle) then IdleTimeout
          else if err.Some? then Internal
          else Conflict;
        return;
      }
      assert req.body[..written] == req.body;
      if !req.outside.finalized {
        return Internal, reported, NotFinalized;
      }
      return Done, Some(current + written), NoFault;
    }
  }

  function Concat(parts: seq<Bytes>): Bytes {
    if parts == [] then [] else Concat(parts[..|parts| - 1]) + parts[|parts| - 1]
  }

  /** What request `k` of a run did to a target that had `length` bytes before the run. */
  ghost predicate Explains(req: Request, reply: Reply, fault: Fault, part: Bytes, regular: bool, length: int,
                           maxSize: int)
  {
    && part <= req.body
    && (reply.Done? || fault.NotFinalized? ==> part == req.body)
    && (!reply.Done? && fault.NoFault? ==> part == [])
    && (reply.Done? ==> req.offset as int == length && length + |part| <= maxSize)
    && (reply.Done? && req.uploadLength.Some? ==> length + |part| <= req.uploadLength.value as int)
    && (reply.Done? && req.uploadLength.Some? && req.complete ==> length + |part| == req.uploadLength.value as int)
    && (fault.NotTruncated? ==> !req.outside.truncated) && (fault.NotFinalized? ==> !req.outside.finalized)
    && (req.outside.Calm() ==> reply == Verdict(req, regular, length, maxSize))
  }

  method PatchPart(target: Target, req: Request, maxSize: int64)
    returns (reply: Reply, ghost fault: Fault, ghost part: Bytes)
    requires 0 < maxSize as int < MAX_INT64 && |target.contents| <= MAX_INT64
    requires req.offset >= 0 && (req.uploadLength.Some? ==> 0 <= req.uploadLength.value)
    modifies target
    ensures target.contents == old(target.contents) + part && |target.contents| <= MAX_INT64
    ensures target.regular == old(target.regular)
    ensures Explains(req, reply, fault, part, target.regular, |old(target.contents)|, maxSize as int)
  {
    var answer, reported, failed := target.Patch(req, maxSize);
    reply, fault := answer, failed;
    part := target.contents[|old(target.contents)|..];
  }

  /** Without faults a run that starts within the limit stays within it. */
  lemma {:induction false} StaysWithin(requests: seq<Request>, replies: seq<Reply>, faults: seq<Fault>,
                                       parts: seq<Bytes>, regular: bool, start: Bytes, maxSize: int, k: nat)
    requires |replies| == |faults| == |parts| == |requests| && k <= |parts| && |start| <= maxSize
    requires forall i :: 0 <= i < |requests| ==> faults[i].NoFault?
    requires forall i :: 0 <= i < |requests| ==>
      Explains(requests[i], replies[i], faults[i], parts[i], regular, |start + Concat(parts[..i])|, maxSize)
    ensures |start + Concat(parts[..k])| <= maxSize
  {
    if k > 0 {
      StaysWithin(requests, replies, faults, parts, regular, start, maxSize, k - 1);
      assert parts[..k][..k - 1] == parts[..k - 1];
    }
  }

  /**
   Any sequence of requests on one target: the file is what it was plus a part of each body in order.
   An accepted request contributes its whole body at the offset it named and within the limit; a
   refused one contributes nothing unless truncating or finalizing failed.
   */
  method Session(target: Target, requests: seq<Request>, maxSize: int64)
    returns (replies: seq<Reply>, ghost faults: seq<Fault>, ghost parts: seq<Bytes>)
    requires 0 < maxSize as int < MAX_INT64 && |target.contents| <= MAX_INT64
    requires forall k :: 0 <= k < |requests| ==>
      requests[k].offset >= 0 && (requests[k].uploadLength.Some? ==> 0 <= requests[k].uploadLength.value)
    modifies target
    ensures |replies| == |faults| == |parts| == |requests|
    ensures target.contents == old(target.contents) + Concat(parts)
    ensures forall k :: 0 <= k < |requests| ==>
      Explains(requests[k], replies[k], faults[k], parts[k], target.regular,
               |old(target.contents) + Concat(parts[..k])|, maxSize as int)
  {
    replies, faults, parts := [], [], [];
    for k := 0 to |requests|
      invariant |replies| == |faults| == |parts| == k && |target.contents| <= MAX_INT64
      invariant target.contents == old(target.contents) + Concat(parts) && target.regular == old(target.regular)
      invariant forall i :: 0 <= i < k ==>
        Explains(requests[i], replies[i], faults[i], parts[i], target.regular,
                 |old(target.contents) + Concat(parts[..i])|, maxSize as int)
    {
      var reply, fault, part := PatchPart(target, requests[k], maxSize);
      assert (parts + [part])[..k] == parts[..k] == parts;
      ConcatAssociates(old(target.contents), Concat(parts), part);
      assert forall i :: 0 <= i < k ==> (parts + [part])[..i] == parts[..i];
      replies, faults, parts := replies + [reply], faults + [fault], parts + [part];
    }
  }

  /** A rejected append does leave bytes behind: the connection fails after one byte, and the file
      cannot be truncated. */
  method TornAppend() returns (reply: Reply, contents: Bytes)
    ensures reply != Done && contents == [1, 2]
  {
    var target := new Target([1], true);
    var outside := Outside(true, true, Some(Other), 1, false, true);
    var req := Request(Gates(true, true, true), 1, None, false, -1, [2, 3], outside);
    var answer, reported, fault := target.Patch(req, 100);
    reply, contents := answer, target.contents;
  }
}
