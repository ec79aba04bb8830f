/**
 The streaming content search: a matcher whose state outlives read boundaries, the readers
 stacked under it, and the decision whether one file is a search result.
 */
module ContentSearch {
  import opened Common
  import opened Utf8

  const HEAD_BYTES := 128
  const BUFFER_BYTES := 65536
  const DEFAULT_READ_LIMIT := 2 * 1024 * 1024

  // ------------------------------------------------------------- naive search

  function LowerAscii(b: Byte): Byte {
    if 65 <= b <= 90 then b + 32 else b
  }

  function FoldByte(b: Byte, caseInsensitive: bool): Byte {
    if caseInsensitive then LowerAscii(b) else b
  }

  /** Folding takes together exactly the two cases of an ASCII letter. */
  lemma FoldIdentifies(a: Byte, b: Byte)
    ensures LowerAscii(a) == LowerAscii(b) <==>
      a == b || (0x41 <= a <= 0x5A && b == a + 0x20) || (0x41 <= b <= 0x5A && a == b + 0x20)
    ensures LowerAscii(LowerAscii(a)) == LowerAscii(a)
  {
  }

  function Fold(s: Bytes, caseInsensitive: bool): (r: Bytes)
    ensures |r| == |s|
    ensures forall i :: 0 <= i < |s| ==> r[i] == FoldByte(s[i], caseInsensitive)
  {
    seq(|s|, i requires 0 <= i < |s| => FoldByte(s[i], caseInsensitive))
  }

  /** The pattern stands somewhere in the text. */
  ghost predicate Occurs(p: Bytes, t: Bytes) {
    exists i :: 0 <= i && OccursAt(p, t, i)
  }

  ghost predicate OccursAt(p: Bytes, t: Bytes, i: nat) {
    i + |p| <= |t| && t[i..i + |p|] == p
  }

  // -------------------------------------------------------- borders and states

  /** The first `k` bytes of the pattern are the last `k` bytes of the text. */
  ghost predicate Matches(p: Bytes, k: nat, t: Bytes) {
    k <= |p| && k <= |t| && p[..k] == t[|t| - k..]
  }

  ghost predicate Longest(p: Bytes, t: Bytes, k: nat) {
    && Matches(p, k, t)
    && forall j :: k < j <= |p| ==> !Matches(p, j, t)
  }

  /** Entry `i` is the length of the longest proper border of the first `i + 1` pattern bytes. */
  ghost predicate LongestBorder(p: Bytes, i: nat, k: nat) {
    && i < |p| && k <= i
    && p[..k] == p[i + 1 - k..i + 1]
    && forall j :: k < j <= i ==> p[..j] != p[i + 1 - j..i + 1]
  }

  ghost predicate FailureTable(p: Bytes, failure: seq<nat>) {
    && |failure| <= |p|
    && forall i :: 0 <= i < |failure| ==> LongestBorder(p, i, failure[i])
  }

  datatype Matcher = Matcher(pattern: Bytes, failure: seq<nat>, caseInsensitive: bool)
  {
    ghost predicate Valid() {
      |failure| == |pattern| && FailureTable(pattern, failure)
    }
  }

  lemma MatchSnoc(p: Bytes, k: nat, t: Bytes, v: Byte)
    ensures Matches(p, k + 1, t + [v]) <==> k < |p| && Matches(p, k, t) && p[k] == v
  {
    if k < |p| && k <= |t| {
      assert (t + [v])[|t| - k..] == t[|t| - k..] + [v];
      assert p[..k + 1] == p[..k] + [p[k]];
    }
  }

  /** Among the prefixes that match the end of a text, the shorter are borders of the longer. */
  lemma ShorterMatchIsBorder(p: Bytes, t: Bytes, s: nat, k: nat)
    requires Matches(p, s, t) && k <= s
    ensures Matches(p, k, t) <==> p[..k] == p[s - k..s]
  {
    assert t[|t| - k..] == t[|t| - s..][s - k..];
    assert p[s - k..s] == p[..s][s - k..];
  }

  /** The fallback: no prefix between the failure entry and the current state matches. */
  lemma FallbackSkips(p: Bytes, failure: seq<nat>, t: Bytes, s: nat, k: nat)
    requires FailureTable(p, failure) && 0 < s <= |failure| && Matches(p, s, t)
    requires failure[s - 1] < k < s
    ensures !Matches(p, k, t)
  {
    assert LongestBorder(p, s - 1, failure[s - 1]);
    ShorterMatchIsBorder(p, t, s, k);
  }

  lemma FallbackMatches(p: Bytes, failure: seq<nat>, t: Bytes, s: nat)
    requires FailureTable(p, failure) && 0 < s <= |failure| && Matches(p, s, t)
    ensures failure[s - 1] < s && Matches(p, failure[s - 1], t)
  {
    assert LongestBorder(p, s - 1, failure[s - 1]);
    ShorterMatchIsBorder(p, t, s, failure[s - 1]);
  }

  /** One byte further: the state stays the longest pattern prefix that ends the text. */
  method Advance(p: Bytes, failure: seq<nat>, state: nat, v: Byte, ghost t: Bytes) returns (next: nat)
    requires FailureTable(p, failure) && state < |p| && state <= |failure|
    requires Longest(p, t, state)
    ensures Longest(p, t + [v], next)
    ensures next <= state + 1
  {
    next := state;
    while next > 0 && v != p[next]
      invariant next <= state && Matches(p, next, t)
      invariant forall k :: next < k < |p| && Matches(p, k, t) ==> p[k] != v
    {
      FallbackMatches(p, failure, t, next);
      forall k | failure[next - 1] < k < next ensures !Matches(p, k, t) {
        FallbackSkips(p, failure, t, next, k);
      }
      next := failure[next - 1];
    }
    ghost var reached := next;
    if v == p[next] {
      next := next + 1;
    }
    forall j | next < j <= |p| ensures !Matches(p, j, t + [v]) {
      MatchSnoc(p, j - 1, t, v);
    }
    MatchSnoc(p, reached, t, v);
    assert Matches(p, 0, t + [v]);
  }

  /** Borders of a pattern prefix are matches of the pattern against its own tail. */
  lemma BorderIsSelfMatch(p: Bytes, i: nat, k: nat)
    requires i < |p|
    ensures LongestBorder(p, i, k) <==> Longest(p, p[1..i + 1], k)
  {
    var t := p[1..i + 1];
    forall j: nat | j <= i ensures Matches(p, j, t) <==> p[..j] == p[i + 1 - j..i + 1] {
      assert t[|t| - j..] == p[i + 1 - j..i + 1];
    }
  }

  lemma TableSnoc(p: Bytes, failure: seq<nat>, k: nat)
    requires FailureTable(p, failure) && LongestBorder(p, |failure|, k)
    ensures FailureTable(p, failure + [k])
  {
  }

  /** Fills the failure table by matching the pattern against itself. */
  method FillFailure(pattern: Bytes, failure: array<nat>)
    requires failure.Length == |pattern| > 0 && failure[0] == 0
    modifies failure
    ensures FailureTable(pattern, failure[..])
  {
    var matched: nat := 0;
    BorderIsSelfMatch(pattern, 0, 0);
    var i := 1;
    while i < |pattern|
      invariant 1 <= i <= |pattern|
      invariant matched < i && Longest(pattern, pattern[1..i], matched)
      invariant FailureTable(pattern, failure[..i])
    {
      ghost var filled := failure[..i];
      matched := Advance(pattern, failure[..i], matched, pattern[i], pattern[1..i]);
      assert pattern[1..i] + [pattern[i]] == pattern[1..i + 1];
      BorderIsSelfMatch(pattern, i, matched);
      failure[i] := matched;
      TableSnoc(pattern, filled, matched);
      assert failure[..i + 1] == filled + [matched];
      i := i + 1;
    }
    assert failure[..] == failure[..|pattern|];
  }

  /** Folds the query and fills the failure table. */
  method NewMatcher(query: Bytes, caseInsensitive: bool) returns (m: Matcher)
    ensures m.Valid() && m.caseInsensitive == caseInsensitive
    ensures m.pattern == Fold(query, caseInsensitive)
  {
    var pattern := Fold(query, caseInsensitive);
    var failure := new nat[|pattern|](_ => 0);
    if |pattern| > 0 {
      FillFailure(pattern, failure);
    }
    m := Matcher(pattern, failure[..], caseInsensitive);
  }

  /** A pattern newly occurs only by ending with the new byte. */
  lemma OccursSnoc(p: Bytes, t: Bytes, v: Byte)
    ensures Occurs(p, t + [v]) <==> Occurs(p, t) || Matches(p, |p|, t + [v])
  {
    var u := t + [v];
    if Occurs(p, t) {
      var i :| 0 <= i && OccursAt(p, t, i);
      assert u[i..i + |p|] == t[i..i + |p|];
      assert OccursAt(p, u, i);
    }
    if Matches(p, |p|, u) {
      assert u[|u| - |p|..] == u[|u| - |p|..|u| - |p| + |p|];
      assert OccursAt(p, u, |u| - |p|);
    }
    if Occurs(p, u) {
      var i :| 0 <= i && OccursAt(p, u, i);
      if i + |p| == |u| {
        assert u[i..] == u[i..i + |p|];
        assert Matches(p, |p|, u);
      } else {
        assert u[i..i + |p|] == t[i..i + |p|];
        assert OccursAt(p, t, i);
      }
    }
  }

  lemma {:induction false} OccursPrefix(p: Bytes, t: Bytes, u: Bytes)
    requires Occurs(p, t)
    ensures Occurs(p, t + u)
  {
    var i :| 0 <= i && OccursAt(p, t, i);
    assert (t + u)[i..i + |p|] == t[i..i + |p|];
    assert OccursAt(p, t + u, i);
  }

  // ------------------------------------------------------------------ readers

  datatype ReadError = Eof | UnexpectedEof | Cancelled | ReadLimit | Device | NoProgress

  /** io.LimitReader: what of `all` comes through when `left` bytes may still pass. */
  function Cut(all: Bytes, left: int): Bytes {
    if left <= 0 then [] else if left < |all| then all[..left] else all
  }

  lemma CutAfter(chunk: Bytes, rest: Bytes, left: int)
    requires |chunk| <= left
    ensures Cut(chunk + rest, left) == chunk + Cut(rest, left - |chunk|)
  {
  }

  /** One request: what all its reads together may still take, and what went wrong outside. */
  class Budget {
    var readRemaining: int
    var cancelled: bool
    var deviceFailed: bool

    constructor (total: int)
      ensures readRemaining == total && !cancelled && !deviceFailed
    {
      readRemaining, cancelled, deviceFailed := total, false, false;
    }

    /** ctx.Err(): the request can be cancelled at any time, and stays so. */
    method Poll() returns (err: bool)
      modifies this`cancelled
      ensures err == cancelled && (old(cancelled) ==> cancelled)
    {
      if * {
        cancelled := true;
      }
      err := cancelled;
    }

    /** Whether an error has its cause. */
    ghost predicate Excuses(e: ReadError)
      reads this
    {
      match e
      case Cancelled => cancelled
      case ReadLimit => readRemaining <= 0
      case Device => deviceFailed
      case _ => false
    }
  }

  /**
   A file behind the request's read budget and a byte limit. How much a read returns, whether it
   fails and whether the request is cancelled meanwhile is not determined.
   */
  class LimitedFile {
    const content: Bytes
    const budget: Budget
    var pos: nat
    var left: int

    constructor (content: Bytes, budget: Budget, limit: int)
      ensures this.content == content && this.budget == budget && pos == 0 && left == limit
    {
      this.content, this.budget, this.pos, this.left := content, budget, 0, limit;
    }

    ghost predicate Valid()
      reads this
    {
      pos <= |content|
    }

    /** The bytes the limit still lets through. */
    ghost function Pending(): Bytes
      requires Valid()
      reads this
    {
      Cut(content[pos..], left)
    }

    /** What the budget would be without this file: unchanged as long as exactly what was read of it
        is charged. */
    ghost function Charged(): int
      reads this, budget
    {
      budget.readRemaining + pos
    }

    /** Charges what the file delivers to the budget. */
    method BudgetedRead(max: nat) returns (chunk: Bytes, err: Option<ReadError>)
      requires Valid() && 0 < max
      modifies this`pos, budget
      ensures Valid() && |chunk| <= max
      ensures pos == old(pos) + |chunk| && chunk == content[old(pos)..pos]
      ensures budget.readRemaining == old(budget.readRemaining) - |chunk|
      ensures err == Some(Eof) ==> pos == |content|
      ensures err == None ==> |chunk| > 0
      ensures err.Some? && err != Some(Eof) ==> budget.Excuses(err.value)
      ensures old(budget.readRemaining) >= 0 ==> budget.readRemaining >= 0
    {
      var cancelled := budget.Poll();
      if cancelled {
        return [], Some(Cancelled);
      }
      if budget.readRemaining <= 0 {
        return [], Some(ReadLimit);
      }
      var room := if max > budget.readRemaining then budget.readRemaining else max;
      if * {
        budget.deviceFailed := true;
        return [], Some(Device);
      }
      if pos == |content| {
        return [], Some(Eof);
      }
      var most := if room > |content| - pos then |content| - pos else room;
      var n: nat :| 1 <= n <= most;
      chunk := content[pos..pos + n];
      pos, err := pos + n, None;
      budget.readRemaining := budget.readRemaining - n;
      var ended := pos == |content|;
      if * {
        err := if ended then Some(Eof) else None;
      }
    }

    method Read(max: nat) returns (chunk: Bytes, err: Option<ReadError>)
      requires Valid() && 0 < max
      modifies this, budget
      ensures Valid() && |chunk| <= max
      ensures chunk + Pending() == old(Pending())
      ensures budget.readRemaining == old(budget.readRemaining) - |chunk| && pos == old(pos) + |chunk|
      ensures err == Some(Eof) ==> Pending() == []
      ensures err == None ==> |chunk| > 0
      ensures err.Some? && err != Some(Eof) ==> budget.Excuses(err.value)
    {
      if left <= 0 {
        return [], Some(Eof);
      }
      ghost var start := pos;
      chunk, err := BudgetedRead(if max > left then left else max);
      assert content[start..] == chunk + content[pos..];
      CutAfter(chunk, content[pos..], left);
      left := left - |chunk|;
    }

    /** io.ReadFull: reads until the buffer is full or the reader ends or fails. */
    method ReadFull(size: nat) returns (head: Bytes, err: Option<ReadError>)
      requires Valid()
      modifies this, budget
      ensures Valid() && |head| <= size
      ensures head + Pending() == old(Pending())
      ensures budget.readRemaining == old(budget.readRemaining) - |head| && pos == old(pos) + |head|
      ensures err == None ==> |head| == size
      ensures err == Some(Eof) || err == Some(UnexpectedEof) ==> Pending() == []
      ensures err.Some? ==> err.value.Eof? || err.value.UnexpectedEof? || budget.Excuses(err.value)
    {
      head, err := [], None;
      ghost var all, rest := Pending(), Pending();
      while |head| < size && err == None
        invariant Valid() && |head| <= size
        invariant rest == Pending() && all == head + rest
        invariant budget.readRemaining == old(budget.readRemaining) - |head| && pos == old(pos) + |head|
        invariant err == Some(Eof) ==> rest == []
        invariant err.Some? && err != Some(Eof) ==> budget.Excuses(err.value)
        decreases size - |head|, err == None
      {
        var chunk: Bytes;
        chunk, err := Read(size - |head|);
        assert head + (chunk + Pending()) == head + chunk + Pending();
        head, rest := head + chunk, Pending();
      }
      if |head| == size {
        err := None;
      } else if |head| > 0 && err == Some(Eof) {
        err := Some(UnexpectedEof);
      }
    }
  }

  /** The head that was already read, then the rest of the file, cut at the search limit. */
  class Stream {
    var head: Bytes
    const file: LimitedFile
    var left: int

    constructor (head: Bytes, file: LimitedFile, limit: int)
      ensures this.head == head && this.file == file && left == limit
    {
      this.head, this.file, this.left := head, file, limit;
    }

    ghost function Pending(): Bytes
      requires file.Valid()
      reads this, file
    {
      Cut(head + file.Pending(), left)
    }

    method Read(max: nat) returns (chunk: Bytes, err: Option<ReadError>)
      requires file.Valid() && 0 < max
      modifies this, file, file.budget
      ensures file.Valid() && file.Charged() == old(file.Charged())
      ensures chunk + Pending() == old(Pending())
      ensures err == Some(Eof) ==> Pending() == []
      ensures err == None ==> |chunk| > 0
      ensures err.Some? && err != Some(Eof) ==> file.budget.Excuses(err.value)
    {
      if left <= 0 {
        return [], Some(Eof);
      }
      var room := if max > left then left else max;
      ghost var all, rest := head + file.Pending(), file.Pending();
      if head != [] {
        var n := if room > |head| then |head| else room;
        chunk, err := head[..n], None;
        rest := head[n..] + rest;
        head := head[n..];
      } else {
        assert all == rest;
        chunk, err := file.Read(room);
        rest := file.Pending();
        assert rest == head + file.Pending();
      }
      assert all == chunk + rest;
      CutAfter(chunk, rest, left);
      left := left - |chunk|;
    }
  }

  // ------------------------------------------------------------------- search

  lemma FoldConcat(a: Bytes, b: Bytes, ci: bool)
    ensures Fold(a + b, ci) == Fold(a, ci) + Fold(b, ci)
  {
  }

  ghost predicate Hit(m: Matcher, text: Bytes) {
    Occurs(m.pattern, Fold(text, m.caseInsensitive))
  }

  /** What the matcher knows after reading `text` without a hit. */
  ghost predicate InStep(m: Matcher, text: Bytes, state: nat) {
    && state < |m.pattern|
    && Longest(m.pattern, Fold(text, m.caseInsensitive), state)
    && !Hit(m, text)
  }

  lemma HitStays(m: Matcher, text: Bytes, more: Bytes)
    requires Hit(m, text)
    ensures Hit(m, text + more)
  {
    FoldConcat(text, more, m.caseInsensitive);
    OccursPrefix(m.pattern, Fold(text, m.caseInsensitive), Fold(more, m.caseInsensitive));
  }

  lemma StartInStep(m: Matcher)
    requires |m.pattern| > 0
    ensures InStep(m, [], 0)
  {
  }

  /** Feeds one chunk to the matcher, starting from what was read before it. */
  method ScanChunk(m: Matcher, state: nat, chunk: Bytes, ghost before: Bytes) returns (next: nat, found: bool)
    requires m.Valid() && InStep(m, before, state)
    ensures found <==> Hit(m, before + chunk)
    ensures !found ==> InStep(m, before + chunk, next)
  {
    next, found := state, false;
    ghost var ci := m.caseInsensitive;
    assert before + chunk[..0] == before;
    for i := 0 to |chunk|
      invariant InStep(m, before + chunk[..i], next)
    {
      var value := if m.caseInsensitive then LowerAscii(chunk[i]) else chunk[i];
      ghost var t := Fold(before + chunk[..i], ci);
      assert Fold(before + chunk[..i + 1], ci) == t + [value];
      next := Advance(m.pattern, m.failure, next, value, t);
      OccursSnoc(m.pattern, t, value);
      if next == |m.pattern| {
        assert before + chunk == before + chunk[..i + 1] + chunk[i + 1..];
        HitStays(m, before + chunk[..i + 1], chunk[i + 1..]);
        return next, true;
      }
    }
    assert chunk[..|chunk|] == chunk;
  }

  /** One turn of the read loop: None means to go on. */
  method ReadAndScan(stream: Stream, m: Matcher, state: nat, ghost done: Bytes)
    returns (next: nat, outcome: Option<Result<bool, ReadError>>, ghost chunk: Bytes)
    requires stream.file.Valid() && m.Valid() && InStep(m, done, state)
    modifies stream, stream.file, stream.file.budget
    ensures stream.file.Valid() && chunk + stream.Pending() == old(stream.Pending())
    ensures stream.file.Charged() == old(stream.file.Charged())
    ensures outcome.None? ==> chunk != [] && InStep(m, done + chunk, next)
    ensures outcome.Some? && outcome.value.Ok? ==> (outcome.value.value <==> Hit(m, done + (chunk + stream.Pending())))
    ensures outcome.Some? && outcome.value.Err? ==> stream.file.budget.Excuses(outcome.value.error)
  {
    next, chunk := state, [];
    var cancelled := stream.file.budget.Poll();
    if cancelled {
      return next, Some(Err(Cancelled)), chunk;
    }
    var bytes, err := stream.Read(BUFFER_BYTES);
    chunk := bytes;
    cancelled := stream.file.budget.Poll();
    if cancelled {
      return next, Some(Err(Cancelled)), chunk;
    }
    var found: bool;
    next, found := ScanChunk(m, state, bytes, done);
    ghost var rest := stream.Pending();
    assert done + (chunk + rest) == done + chunk + rest;
    if found {
      HitStays(m, done + chunk, rest);
      outcome := Some(Ok(true));
    } else if err == Some(Eof) {
      assert done + chunk + rest == done + chunk;
      outcome := Some(Ok(false));
    } else if err.Some? {
      outcome := Some(Err(err.value));
    } else {
      outcome := if |bytes| == 0 then Some(Err(NoProgress)) else None;
    }
  }

  /** Without an error the answer is whether the folded pattern occurs in what the reader delivers,
      however the reads split it. */
  method StreamSearch(stream: Stream, m: Matcher) returns (r: Result<bool, ReadError>)
    requires stream.file.Valid() && m.Valid()
    modifies stream, stream.file, stream.file.budget
    ensures stream.file.Valid() && stream.file.Charged() == old(stream.file.Charged())
    ensures r.Ok? ==> (r.value <==> Hit(m, old(stream.Pending())))
    ensures r.Err? ==> stream.file.budget.Excuses(r.error)
  {
    ghost var text := stream.Pending();
    var cancelled := stream.file.budget.Poll();
    if cancelled {
      return Err(Cancelled);
    }
    if |m.pattern| == 0 {
      assert OccursAt(m.pattern, Fold(text, m.caseInsensitive), 0);
      return Ok(true);
    }
    var state: nat := 0;
    var outcome: Option<Result<bool, ReadError>> := None;
    ghost var done, rest: Bytes := [], text;
    StartInStep(m);
    while outcome.None?
      invariant stream.file.Valid() && rest == stream.Pending() && text == done + rest
      invariant stream.file.Charged() == old(stream.file.Charged())
      invariant outcome.None? ==> InStep(m, done, state)
      invariant outcome.Some? && outcome.value.Ok? ==> (outcome.value.value <==> Hit(m, text))
      invariant outcome.Some? && outcome.value.Err? ==> stream.file.budget.Excuses(outcome.value.error)
      decreases |rest|, outcome.None?
    {
      ghost var chunk: Bytes;
      state, outcome, chunk := ReadAndScan(stream, m, state, done);
      assert done + (chunk + stream.Pending()) == done + chunk + stream.Pending();
      done, rest := done + chunk, stream.Pending();
    }
    r := outcome.value;
  }

  datatype SizeFilter = SizeFilter(min: Option<int>, max: Option<int>)

  datatype ContentFilter = ContentFilter(
    query: Bytes, maxSearchSize: Option<int>, includeUnmatched: bool, caseInsensitive: bool)
  {
    function ReadLimit(): int {
      if maxSearchSize.None? then DEFAULT_READ_LIMIT else maxSearchSize.value
    }
  }

  function SizeMatches(size: int, filter: Option<SizeFilter>): bool {
    filter.None? || (
      && (filter.value.min.None? || filter.value.min.value <= size)
      && (filter.value.max.None? || size < filter.value.max.value))
  }

  /** Which files a search reports. */
  ghost predicate FileMatches(content: Bytes, size: Option<SizeFilter>, filter: Option<ContentFilter>) {
    && (size.Some? && size.value.min.Some? ==> size.value.min.value <= |content|)
    && (size.Some? && size.value.max.Some? ==> |content| < size.value.max.value)
    && (filter.None? ||
        if |content| <= filter.value.ReadLimit() then
          && Extensible(content[..if |content| < HEAD_BYTES then |content| else HEAD_BYTES])
          && Occurs(Fold(filter.value.query, filter.value.caseInsensitive), Fold(content, filter.value.caseInsensitive))
        else filter.value.includeUnmatched)
  }

  /** Decides one regular file whose content is `content`; the head is read once and replayed. */
  method SearchFile(content: Bytes, size: Option<SizeFilter>, filter: Option<ContentFilter>, m: Matcher, budget: Budget)
    returns (r: Result<bool, ReadError>)
    requires m.Valid()
    requires filter.Some? ==>
      m.pattern == Fold(filter.value.query, filter.value.caseInsensitive)
      && m.caseInsensitive == filter.value.caseInsensitive
    modifies budget
    ensures r.Ok? ==> (r.value <==> FileMatches(content, size, filter))
    ensures r.Err? ==> budget.Excuses(r.error)
    ensures old(budget.readRemaining) - |content| <= budget.readRemaining <= old(budget.readRemaining)
    ensures r == Err(ReadLimit) ==> old(budget.readRemaining) <= |content|
    ensures !SizeMatches(|content|, size) ==> budget.readRemaining == old(budget.readRemaining)
  {
    if !SizeMatches(|content|, size) {
      return Ok(false);
    }
    var scanned := filter.Some? && |content| <= filter.value.ReadLimit();
    if filter.Some? && !scanned && !filter.value.includeUnmatched {
      return Ok(false);
    }
    var limit := if scanned then filter.value.ReadLimit() else HEAD_BYTES;
    var file := new LimitedFile(content, budget, limit);
    var head, err := file.ReadFull(HEAD_BYTES);
    if err.Some? && err != Some(Eof) && err != Some(UnexpectedEof) {
      return Err(err.value);
    }
    if scanned {
      assert head + file.Pending() == content;
      assert head == content[..|head|];
      var text := ValidTextHead(head);
      if !text {
        return Ok(false);
      }
      var stream := new Stream(head, file, limit);
      assert stream.Pending() == content;
      r := StreamSearch(stream, m);
    } else {
      r := Ok(true);
    }
  }
}
