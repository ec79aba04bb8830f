/**
 The CurseForge fingerprint: MurmurHash2 with seed 1 over a file's bytes without white space,
 computed in two streaming passes.
 */
module Fingerprint {
  import opened Common

  type Octet = bv8
  type Word = bv32

  const MULTIPLIER: Word := 1540483477
  const SEED: Word := 1
  const WORD_VALUES := 0x1_0000_0000

  predicate Ignored(b: Octet) {
    b == 9 || b == 10 || b == 13 || b == 32
  }

  function Stripped(s: seq<Octet>): seq<Octet> {
    if s == [] then []
    else
      var front, b := Stripped(s[..|s| - 1]), s[|s| - 1];
      if Ignored(b) then front else front + [b]
  }

  lemma {:induction false} StrippedConcat(a: seq<Octet>, b: seq<Octet>)
    ensures Stripped(a + b) == Stripped(a) + Stripped(b)
    decreases |b|
  {
    if b == [] {
      assert a + b == a;
    } else {
      StrippedConcat(a, b[..|b| - 1]);
      assert (a + b)[..|a + b| - 1] == a + b[..|b| - 1];
    }
  }

  // ------------------------------------------------- MurmurHash2 over whole data

  /** Four bytes as a little-endian number. */
  function LittleEndian(block: seq<Octet>): Word
    requires |block| == 4
  {
    (block[0] as Word) + 0x100 * (block[1] as Word) + 0x1_0000 * (block[2] as Word) + 0x100_0000 * (block[3] as Word)
  }

  function Times(x: Word): Word {
    x * MULTIPLIER
  }

  function Xor(x: Word, y: Word): Word {
    x ^ y
  }

  function FoldDown(x: Word, bits: Word): Word
    requires bits <= 32
  {
    x ^ (x >> bits)
  }

  function MixBlock(h: Word, block: Word): Word {
    Xor(Times(h), Times(FoldDown(Times(block), 24)))
  }

  /** Mixes in every whole block, and returns the one to three bytes left over. */
  function Blocks(h: Word, data: seq<Octet>): (r: (Word, seq<Octet>))
    ensures |r.1| == |data| % 4
    decreases |data|
  {
    if |data| < 4 then (h, data) else Blocks(MixBlock(h, LittleEndian(data[..4])), data[4..])
  }

  /** How far up in a word the byte at an index goes. */
  function ShiftFor(index: nat): Word {
    if index == 0 then 0 else if index == 1 then 8 else if index == 2 then 16 else 24
  }

  function At(b: Octet, shift: Word): Word
    requires shift <= 32
  {
    (b as Word) << shift
  }

  /** The left-over bytes are mixed in one by one, the last of them first. */
  function XorRest(h: Word, rest: seq<Octet>): Word
    requires |rest| < 4
    decreases |rest|
  {
    if rest == [] then h
    else XorRest(Xor(h, At(rest[|rest| - 1], ShiftFor(|rest| - 1))), rest[..|rest| - 1])
  }

  function Avalanche(h: Word): Word {
    FoldDown(Times(FoldDown(h, 13)), 15)
  }

  function Finished(h: Word, rest: seq<Octet>): Word
    requires |rest| < 4
  {
    Avalanche(if rest == [] then h else Times(XorRest(h, rest)))
  }

  function Murmur2(data: seq<Octet>): Word {
    var (h, rest) := Blocks(Xor(SEED, (|data| % WORD_VALUES) as Word), data);
    Finished(h, rest)
  }

  // ------------------------------------------------------------- byte by byte

  function PutByte(tail: Word, b: Octet, shift: Word): Word
    requires shift <= 32
  {
    tail | At(b, shift)
  }

  /** Up to four bytes or-ed together, each eight bits above the one before. */
  function Pack(bytes: seq<Octet>): Word {
    if bytes == [] then 0
    else PutByte(Pack(bytes[..|bytes| - 1]), bytes[|bytes| - 1], ShiftFor(|bytes| - 1))
  }

  lemma Pack1(a: Octet)
    ensures Pack([a]) == a as Word
  {
    assert [a][..0] == [];
    assert PutByte(0, a, 0) == a as Word;
  }

  lemma Pack2(a: Octet, b: Octet)
    ensures Pack([a, b]) == (a as Word) | ((b as Word) << 8)
  {
    Pack1(a);
    assert [a, b][..1] == [a];
  }

  lemma Pack3(a: Octet, b: Octet, c: Octet)
    ensures Pack([a, b, c]) == (a as Word) | ((b as Word) << 8) | ((c as Word) << 16)
  {
    Pack2(a, b);
    assert [a, b, c][..2] == [a, b];
  }

  lemma Pack4(a: Octet, b: Octet, c: Octet, d: Octet)
    ensures Pack([a, b, c, d]) == (a as Word) | ((b as Word) << 8) | ((c as Word) << 16) | ((d as Word) << 24)
  {
    Pack3(a, b, c);
    assert [a, b, c, d][..3] == [a, b, c];
  }

  lemma OrIsSum(a: Word, b: Word, c: Word, d: Word)
    requires a < 0x100 && b < 0x100 && c < 0x100 && d < 0x100
    ensures a | (b << 8) | (c << 16) | (d << 24) == a + 0x100 * b + 0x1_0000 * c + 0x100_0000 * d
  {
  }

  lemma OctetIsSmall(b: Octet)
    ensures (b as Word) < 0x100
  {
  }

  lemma PackIsLittleEndian(block: seq<Octet>)
    requires |block| == 4
    ensures Pack(block) == LittleEndian(block)
  {
    var a, b, c, d := block[0], block[1], block[2], block[3];
    assert block == [a, b, c, d];
    Pack4(a, b, c, d);
    OctetIsSmall(a);
    OctetIsSmall(b);
    OctetIsSmall(c);
    OctetIsSmall(d);
    OrIsSum(a as Word, b as Word, c as Word, d as Word);
  }

  lemma PutBelow(tail: Word, b: Octet, shift: Word)
    requires shift == 0 || shift == 8 || shift == 16
    requires tail >> shift == 0
    ensures PutByte(tail, b, shift) >> (shift + 8) == 0
  {
  }

  lemma PutIsXor(h: Word, tail: Word, b: Octet, shift: Word)
    requires shift == 0 || shift == 8 || shift == 16
    requires tail >> shift == 0
    ensures Xor(h, PutByte(tail, b, shift)) == Xor(Xor(h, At(b, shift)), tail)
  {
  }

  lemma XorZero(h: Word)
    ensures Xor(h, 0) == h
  {
  }

  /** Packed bytes fill the word from the bottom, so or-ing and xor-ing them in is the same. */
  lemma {:induction false} PackMixesRest(h: Word, rest: seq<Octet>)
    requires |rest| < 4
    ensures Xor(h, Pack(rest)) == XorRest(h, rest)
    ensures |rest| < 3 ==> Pack(rest) >> ShiftFor(|rest|) == 0
    decreases |rest|
  {
    if rest == [] {
      XorZero(h);
    } else {
      var front, b := rest[..|rest| - 1], rest[|rest| - 1];
      var shift := ShiftFor(|front|);
      PackMixesRest(Xor(h, At(b, shift)), front);
      PutIsXor(h, Pack(front), b, shift);
      PutBelow(Pack(front), b, shift);
    }
  }

  /** One more byte of data. */
  lemma {:induction false} BlocksSnoc(h: Word, data: seq<Octet>, b: Octet)
    ensures var (g, rest) := Blocks(h, data);
      Blocks(h, data + [b]) == if |rest| == 3 then (MixBlock(g, LittleEndian(rest + [b])), []) else (g, rest + [b])
    decreases |data|
  {
    var all := data + [b];
    if |data| >= 4 {
      assert all[..4] == data[..4] && all[4..] == data[4..] + [b];
      BlocksSnoc(MixBlock(h, LittleEndian(data[..4])), data[4..], b);
    } else if |data| == 3 {
      assert all[..4] == all && all[4..] == [];
    }
  }

  /** The three accumulators of the second pass. */
  datatype Accumulator = Accumulator(hash: Word, tail: Word, shift: Word)

  /** The accumulators after `data`: whole blocks mixed, the left-over bytes packed. */
  ghost predicate Holds(a: Accumulator, h: Word, data: seq<Octet>) {
    var (g, rest) := Blocks(h, data);
    a == Accumulator(g, Pack(rest), ShiftFor(|rest|))
  }

  lemma NextShift(length: nat)
    requires length < 4
    ensures ShiftFor(length) + 8 == 32 <==> length == 3
    ensures length < 3 ==> ShiftFor(length) + 8 == ShiftFor(length + 1)
    ensures ShiftFor(length) <= 24
  {
  }

  /** What the next byte does to the accumulators. */
  lemma HoldsSnoc(a: Accumulator, b: Octet, h: Word, data: seq<Octet>)
    requires Holds(a, h, data)
    ensures a.shift <= 24
    ensures var tail := PutByte(a.tail, b, a.shift);
      if a.shift + 8 == 32 then Holds(Accumulator(MixBlock(a.hash, tail), 0, 0), h, data + [b])
      else Holds(Accumulator(a.hash, tail, a.shift + 8), h, data + [b])
  {
    var rest := Blocks(h, data).1;
    BlocksSnoc(h, data, b);
    NextShift(|rest|);
    assert (rest + [b])[..|rest|] == rest;
    assert PutByte(a.tail, b, a.shift) == Pack(rest + [b]);
    if |rest| == 3 {
      PackIsLittleEndian(rest + [b]);
    }
  }

  method AddByte(a: Accumulator, b: Octet, ghost h: Word, ghost data: seq<Octet>) returns (r: Accumulator)
    requires Holds(a, h, data)
    ensures Holds(r, h, if Ignored(b) then data else data + [b])
  {
    if Ignored(b) {
      return a;
    }
    HoldsSnoc(a, b, h, data);
    var tail := PutByte(a.tail, b, a.shift);
    if a.shift + 8 == 32 {
      var mixed := Times(tail);
      mixed := Times(FoldDown(mixed, 24));
      r := Accumulator(Xor(Times(a.hash), mixed), 0, 0);
    } else {
      r := Accumulator(a.hash, tail, a.shift + 8);
    }
  }

  method AddChunk(a: Accumulator, chunk: seq<Octet>, ghost h: Word, ghost data: seq<Octet>) returns (r: Accumulator)
    requires Holds(a, h, data)
    ensures Holds(r, h, data + Stripped(chunk))
  {
    r := a;
    assert data + Stripped(chunk[..0]) == data;
    for i := 0 to |chunk|
      invariant Holds(r, h, data + Stripped(chunk[..i]))
    {
      ghost var sofar := data + Stripped(chunk[..i]);
      assert chunk[..i + 1][..i] == chunk[..i];
      r := AddByte(r, chunk[i], h, sofar);
      assert data + Stripped(chunk[..i + 1]) == if Ignored(chunk[i]) then sofar else sofar + [chunk[i]];
    }
    assert chunk[..|chunk|] == chunk;
  }

  lemma WrapAdds(m: nat, n: nat)
    ensures (m % WORD_VALUES + n) % WORD_VALUES == (m + n) % WORD_VALUES
  {
    var q := m / WORD_VALUES;
    assert m + n == (m % WORD_VALUES + n) + q * WORD_VALUES;
  }

  method CountChunk(count: nat, chunk: seq<Octet>) returns (r: nat)
    requires count < WORD_VALUES
    ensures r == (count + |Stripped(chunk)|) % WORD_VALUES
  {
    r := count;
    for i := 0 to |chunk|
      invariant r == (count + |Stripped(chunk[..i])|) % WORD_VALUES
    {
      assert chunk[..i + 1][..i] == chunk[..i];
      WrapAdds(count + |Stripped(chunk[..i])|, 1);
      if !Ignored(chunk[i]) {
        r := (r + 1) % WORD_VALUES;
      }
    }
    assert chunk[..|chunk|] == chunk;
  }

  // ------------------------------------------------------------- the two passes

  datatype ReadError = Eof | Failed | Cancelled

  /** An open file, and what went wrong outside while it was being read. */
  class File {
    const contents: seq<Octet>
    var offset: nat
    var cancelled: bool
    var failed: bool

    constructor (contents: seq<Octet>)
      ensures this.contents == contents && offset == 0 && !cancelled && !failed
    {
      this.contents, offset, cancelled, failed := contents, 0, false, false;
    }

    /** Whether an error has its cause. */
    ghost predicate Excuses(e: ReadError)
      reads this
    {
      (e.Cancelled? && cancelled) || (e.Failed? && failed)
    }

    method Poll() returns (err: bool)
      modifies this`cancelled
      ensures err == cancelled && (old(cancelled) ==> cancelled)
    {
      if * {
        cancelled := true;
      }
      err := cancelled;
    }

    ghost predicate Valid()
      reads this
    {
      offset <= |contents|
    }

    ghost function Left(): seq<Octet>
      requires Valid()
      reads this
    {
      contents[offset..]
    }

    /** Any number of the bytes that follow, up to `max`, possibly along with an error. */
    method Read(max: nat) returns (chunk: seq<Octet>, err: Option<ReadError>)
      requires Valid() && 0 < max
      modifies this
      ensures Valid()
      ensures chunk + Left() == old(Left())
      ensures err == Some(Eof) ==> Left() == []
      ensures err == None ==> chunk != []
      ensures err.Some? && err != Some(Eof) ==> Excuses(err.value)
    {
      var left := |contents| - offset;
      var n: nat :| n <= left && n <= max;
      chunk := contents[offset..offset + n];
      offset := offset + n;
      err := if n > 0 then None else if left == 0 then Some(Eof) else Some(Failed);
      if * {
        err := if n == left then Some(Eof) else Some(Failed);
      }
      failed := failed || err == Some(Failed);
    }

    method Rewind() returns (ok: bool)
      modifies this
      ensures ok ==> offset == 0
      ensures !ok ==> offset == old(offset) && failed
    {
      ok := *;
      if ok {
        offset := 0;
      } else {
        failed := true;
      }
    }
  }

  /** The first pass: how many bytes count, in 32-bit arithmetic. */
  method CountPass(file: File, buffer: nat) returns (r: Result<nat, ReadError>)
    requires file.Valid() && 0 < buffer
    modifies file
    ensures file.Valid()
    ensures r.Ok? ==> r.value == |Stripped(old(file.Left()))| % WORD_VALUES
    ensures r.Err? ==> file.Excuses(r.error)
  {
    ghost var all, done: seq<Octet> := file.Left(), [];
    var count, more := 0, true;
    while more
      invariant file.Valid() && all == done + file.Left()
      invariant count == |Stripped(done)| % WORD_VALUES
      invariant !more ==> file.Left() == []
      decreases |file.Left()|, more
    {
      var cancelled := file.Poll();
      if cancelled {
        return Err(Cancelled);
      }
      ghost var left := file.Left();
      var chunk, err := file.Read(buffer);
      ConcatAssociates(done, chunk, file.Left());
      StrippedConcat(done, chunk);
      WrapAdds(|Stripped(done)|, |Stripped(chunk)|);
      count := CountChunk(count, chunk);
      done := done + chunk;
      if err == Some(Eof) {
        more := false;
      } else if err.Some? {
        return Err(err.value);
      }
      assert |left| == |chunk| + |file.Left()|;
    }
    assert done + [] == done;
    r := Ok(count);
  }

  /** The second pass, from a known count. */
  method HashPass(file: File, buffer: nat, seed: Word) returns (r: Result<Accumulator, ReadError>)
    requires file.Valid() && 0 < buffer
    modifies file
    ensures file.Valid()
    ensures r.Ok? ==> Holds(r.value, seed, Stripped(old(file.Left())))
    ensures r.Err? ==> file.Excuses(r.error)
  {
    ghost var all, done: seq<Octet> := file.Left(), [];
    var acc, more := Accumulator(seed, 0, 0), true;
    while more
      invariant file.Valid() && all == done + file.Left()
      invariant Holds(acc, seed, Stripped(done))
      invariant !more ==> file.Left() == []
      decreases |file.Left()|, more
    {
      var cancelled := file.Poll();
      if cancelled {
        return Err(Cancelled);
      }
      ghost var left := file.Left();
      var chunk, err := file.Read(buffer);
      ConcatAssociates(done, chunk, file.Left());
      StrippedConcat(done, chunk);
      acc := AddChunk(acc, chunk, seed, Stripped(done));
      done := done + chunk;
      if err == Some(Eof) {
        more := false;
      } else if err.Some? {
        return Err(err.value);
      }
      assert |left| == |chunk| + |file.Left()|;
    }
    assert done + [] == done;
    r := Ok(acc);
  }

  /** Mixes in the bytes left over and finishes the hash. */
  method Finish(acc: Accumulator, ghost seed: Word, ghost data: seq<Octet>) returns (hash: Word)
    requires Holds(acc, seed, data)
    ensures hash == Finished(Blocks(seed, data).0, Blocks(seed, data).1)
  {
    ghost var rest := Blocks(seed, data).1;
    hash := acc.hash;
    if acc.shift > 0 {
      PackMixesRest(acc.hash, rest);
      hash := Times(Xor(hash, acc.tail));
    }
    hash := Times(FoldDown(hash, 13));
    hash := FoldDown(hash, 15);
  }

  /** However the file is read, a fingerprint that is returned is the hash of its stripped contents. */
  method CurseForgeFingerprint(file: File, buffer: nat) returns (r: Result<Word, ReadError>)
    requires file.offset == 0 && 0 < buffer
    modifies file
    ensures r.Ok? ==> r.value == Murmur2(Stripped(file.contents))
    ensures r.Err? ==> file.Excuses(r.error)
  {
    var counted := CountPass(file, buffer);
    if counted.Err? {
      return Err(counted.error);
    }
    var rewound := file.Rewind();
    if !rewound {
      return Err(Failed);
    }
    var seed := Xor(SEED, counted.value as Word);
    var hashed := HashPass(file, buffer, seed);
    if hashed.Err? {
      return Err(hashed.error);
    }
    var hash := Finish(hashed.value, seed, Stripped(file.contents));
    r := Ok(hash);
  }
}
