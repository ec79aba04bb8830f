/**
 The console line sanitizer: keeps printable text, tabs and colour sequences, and drops every
 other control function (section 5.4 and section 8.3.117 of ECMA-48).
 */
module TerminalSanitizer {
  import opened Common
  import opened Utf8

  const ESC: Byte := 0x1B
  const TAB: Byte := 0x09
  const MAX_PARAMS := 64
  const RESET: Bytes := [0x1B, 0x5B, 0x30, 0x6D]

  /** unicode.IsControl: the C0 and C1 sets and DEL. */
  predicate IsControl(rune: int) {
    0 <= rune < 0x20 || 0x7F <= rune < 0xA0
  }

  /** DCS, SOS, OSC, PM and APC. */
  predicate IsControlStringStart(rune: int) {
    rune == 0x90 || rune == 0x98 || rune == 0x9D || rune == 0x9E || rune == 0x9F
  }

  predicate SgrParam(b: Byte) {
    0x30 <= b <= 0x3B
  }

  predicate ValidSgrParams(params: Bytes) {
    forall i :: 0 <= i < |params| ==> SgrParam(params[i])
  }

  predicate CsiFinal(b: Byte) {
    0x40 <= b <= 0x7E
  }

  // ------------------------------------------------------------ what is allowed

  /** ESC [ parameters m, with at most 64 parameter bytes. */
  function Sgr(params: Bytes): Bytes {
    [ESC, 0x5B] + params + [0x6D]
  }

  ghost predicate SgrAt(s: Bytes) {
    exists params: Bytes :: |params| <= MAX_PARAMS && ValidSgrParams(params) && Sgr(params) <= s
  }

  /** Well-formed UTF-8 in which every control character is a tab or starts a colour sequence. */
  ghost predicate Safe(s: Bytes)
    decreases |s|
  {
    s == [] || (
      && !DecodeFails(s) && 1 <= Decode(s).1 <= |s|
      && (IsControl(Decode(s).0) ==> s[0] == TAB || SgrAt(s))
      && Safe(s[Decode(s).1..]))
  }

  lemma {:induction false} SafeIsUtf8(s: Bytes)
    requires Safe(s)
    ensures ValidUtf8(s)
    decreases |s|
  {
    if s != [] {
      SafeIsUtf8(s[Decode(s).1..]);
      ValidSplits(s);
    }
  }

  // ------------------------------------------------------------------- the scan

  datatype Token = Text(bytes: Bytes) | Color(params: Bytes)

  /** Index of the first final byte, or the length. */
  function FinalAt(input: Bytes): (i: nat)
    ensures i <= |input|
    ensures i < |input| ==> CsiFinal(input[i])
    ensures forall k :: 0 <= k < i ==> !CsiFinal(input[k])
  {
    if input == [] then 0 else if CsiFinal(input[0]) then 0 else 1 + FinalAt(input[1..])
  }

  /** A control sequence after its introducer: how much to consume and the colour to keep, if any. */
  function CsiSequence(input: Bytes): (r: (nat, Option<Token>))
    ensures r.0 <= |input|
  {
    var i := FinalAt(input);
    if i == |input| then (i, None)
    else
      var params := input[..i];
      if input[i] != 0x6D || |params| > MAX_PARAMS || !ValidSgrParams(params) then (i + 1, None)
      else (i + 1, Some(Color(params)))
  }

  /** A control string after its introducer: up to BEL, ESC \\ or ST, or everything. */
  function ControlStringLength(input: Bytes): (n: nat)
    ensures n <= |input|
    decreases |input|
  {
    if input == [] then 0
    else if input[0] == 0x07 then 1
    else if input[0] == ESC && |input| > 1 && input[1] == 0x5C then 2
    else
      var rune := Decode(input);
      if rune.0 == 0x9C then rune.1 else rune.1 + ControlStringLength(input[rune.1..])
  }

  /** The length of the terminator at the start of the bytes, 0 if there is none: BEL, ESC \\ or ST. */
  function TerminatorLength(s: Bytes): (n: nat)
    ensures n <= |s|
  {
    if s == [] then 0
    else if s[0] == 0x07 then 1
    else if s[0] == ESC && |s| > 1 && s[1] == 0x5C then 2
    else if Decode(s).0 == 0x9C then Decode(s).1
    else 0
  }

  /** `i` is reached by decoding rune after rune from the start. */
  predicate AtBoundary(s: Bytes, i: nat)
    decreases |s|
  {
    i == 0 || (s != [] && Decode(s).1 <= i && AtBoundary(s[Decode(s).1..], i - Decode(s).1))
  }

  ghost predicate NoTerminatorBefore(s: Bytes, end: nat) {
    forall i: nat :: i < end && i <= |s| && AtBoundary(s, i) ==> TerminatorLength(s[i..]) == 0
  }

  /** A control string ends with the first terminator at a rune boundary, or with the input. */
  ghost predicate EndsControlString(s: Bytes, n: nat) {
    || (n == |s| && NoTerminatorBefore(s, |s|))
    || exists i: nat ::
         && i <= |s| && AtBoundary(s, i) && NoTerminatorBefore(s, i)
         && TerminatorLength(s[i..]) > 0 && n == i + TerminatorLength(s[i..])
  }

  lemma NoTerminatorAhead(s: Bytes, width: nat, end: nat)
    requires s != [] && width == Decode(s).1 && TerminatorLength(s) == 0
    requires NoTerminatorBefore(s[width..], end)
    ensures NoTerminatorBefore(s, end + width)
  {
    forall i: nat | i < end + width && i <= |s| && AtBoundary(s, i) ensures TerminatorLength(s[i..]) == 0 {
      if i == 0 {
        assert s[0..] == s;
      } else {
        assert s[width..][i - width..] == s[i..];
      }
    }
  }

  lemma {:induction false} ControlStringEnds(s: Bytes)
    ensures EndsControlString(s, ControlStringLength(s))
    decreases |s|
  {
    if s != [] {
      assert s[0..] == s;
      if TerminatorLength(s) > 0 {
        assert NoTerminatorBefore(s, 0) && AtBoundary(s, 0);
      } else {
        var width := Decode(s).1;
        var rest := s[width..];
        ControlStringEnds(rest);
        if ControlStringLength(rest) == |rest| && NoTerminatorBefore(rest, |rest|) {
          NoTerminatorAhead(s, width, |rest|);
        } else {
          var i: nat :|
            && i <= |rest| && AtBoundary(rest, i) && NoTerminatorBefore(rest, i)
            && TerminatorLength(rest[i..]) > 0 && ControlStringLength(rest) == i + TerminatorLength(rest[i..]);
          NoTerminatorAhead(s, width, i);
          assert s[i + width..] == rest[i..];
          assert AtBoundary(s, i + width);
        }
      }
    }
  }

  function EscapeSequence(input: Bytes): (r: (nat, Option<Token>))
    requires input != []
    ensures 1 <= r.0 <= |input|
  {
    if |input| < 2 then (|input|, None)
    else if input[1] == 0x5B then
      var csi := CsiSequence(input[2..]);
      (2 + csi.0, csi.1)
    else if input[1] in {0x5D, 0x50, 0x58, 0x5E, 0x5F} then (2 + ControlStringLength(input[2..]), None)
    else (2, None)
  }

  /** What the next part of the line is: how long, and what of it is kept. */
  function Step(line: Bytes): (r: (nat, Option<Token>))
    requires line != []
    ensures 1 <= r.0 <= |line|
  {
    if line[0] == ESC then EscapeSequence(line)
    else
      var (rune, size) := Decode(line);
      if rune == 0x9B then
        var csi := CsiSequence(line[size..]);
        (size + csi.0, csi.1)
      else if IsControlStringStart(rune) then (size + ControlStringLength(line[size..]), None)
      else if rune == RUNE_ERROR && size == 1 then (size, None)
      else if rune == TAB || !IsControl(rune) then (size, Some(Text(line[..size])))
      else (size, None)
  }

  function Emit(t: Token): Bytes {
    match t
    case Text(bytes) => bytes
    case Color(params) => Sgr(params)
  }

  function EmitAny(t: Option<Token>): Bytes {
    if t.None? then [] else Emit(t.value)
  }

  /** Everything the scan keeps of the line. */
  function Kept(line: Bytes): Bytes
    decreases |line|
  {
    if line == [] then [] else EmitAny(Step(line).1) + Kept(line[Step(line).0..])
  }

  /** Whether the scan keeps a colour sequence. */
  predicate Colored(line: Bytes)
    decreases |line|
  {
    line != [] && (IsColor(Step(line).1) || Colored(line[Step(line).0..]))
  }

  predicate IsColor(t: Option<Token>) {
    t.Some? && t.value.Color?
  }

  /** The sanitized line: the kept parts, and a reset when any colour was kept. */
  function Sanitized(line: Bytes): Bytes {
    Kept(line) + if Colored(line) then RESET else []
  }

  /** Finds the final byte of a control sequence. */
  method ScanCsi(input: Bytes) returns (consumed: nat, sgr: Option<Token>)
    ensures (consumed, sgr) == CsiSequence(input)
  {
    var i := 0;
    while i < |input|
      invariant i <= |input|
      invariant forall k :: 0 <= k < i ==> !CsiFinal(input[k])
    {
      if CsiFinal(input[i]) {
        assert FinalAt(input) == i;
        var params := input[..i];
        if input[i] != 0x6D || |params| > MAX_PARAMS || !ValidSgrParams(params) {
          return i + 1, None;
        }
        return i + 1, Some(Color(params));
      }
      i := i + 1;
    }
    consumed, sgr := |input|, None;
  }

  /** Finds the end of a control string. */
  method ScanControlString(input: Bytes) returns (length: nat)
    ensures length == ControlStringLength(input) && EndsControlString(input, length)
  {
    length := FindTerminator(input);
    ControlStringEnds(input);
  }

  method FindTerminator(input: Bytes) returns (length: nat)
    ensures length == ControlStringLength(input)
  {
    var i := 0;
    while i < |input|
      invariant i <= |input|
      invariant ControlStringLength(input) == i + ControlStringLength(input[i..])
    {
      if input[i] == 0x07 {
        return i + 1;
      }
      if input[i] == ESC && i + 1 < |input| && input[i + 1] == 0x5C {
        return i + 2;
      }
      var (rune, size) := Decode(input[i..]);
      if rune == 0x9C {
        return i + size;
      }
      assert input[i..][size..] == input[i + size..];
      i := i + size;
    }
    length := |input|;
  }

  method ScanEscape(input: Bytes) returns (consumed: nat, sgr: Option<Token>)
    requires input != []
    ensures (consumed, sgr) == EscapeSequence(input)
  {
    consumed, sgr := |input|, None;
    if |input| >= 2 {
      if input[1] == 0x5B {
        consumed, sgr := ScanCsi(input[2..]);
        consumed := consumed + 2;
      } else if input[1] in {0x5D, 0x50, 0x58, 0x5E, 0x5F} {
        consumed := ScanControlString(input[2..]);
        consumed := consumed + 2;
      } else {
        consumed := 2;
      }
    }
  }

  /** What the scan keeps. */
  predicate Good(t: Token) {
    match t
    case Text(b) => b != [] && !DecodeFails(b) && Decode(b).1 == |b| && (b == [TAB] || !IsControl(Decode(b).0))
    case Color(params) => |params| <= MAX_PARAMS && ValidSgrParams(params)
  }

  lemma StepIsGood(line: Bytes)
    requires line != [] && Step(line).1.Some?
    ensures Good(Step(line).1.value)
  {
    var (rune, size) := Decode(line);
    var t := Step(line).1.value;
    if t.Text? {
      assert line == line[..size] + line[size..];
      assert FullRune(line[..size]);
      DecodePrefix(line[..size], line[size..]);
    }
  }

  /** A kept token stands in the line as it is; a colour may also have the one-rune introducer. */
  predicate StandsIn(t: Token, part: Bytes) {
    match t
    case Text(b) => part == b
    case Color(params) => part == Sgr(params) || part == [0xC2, 0x9B] + params + [0x6D]
  }

  lemma OneRuneIntroducer(line: Bytes)
    requires Decode(line).0 == 0x9B
    ensures Decode(line).1 == 2 <= |line| && line[..2] == [0xC2, 0x9B]
  {
  }

  lemma CsiStands(input: Bytes)
    requires CsiSequence(input).1.Some?
    ensures var (n, t) := CsiSequence(input); t.value.Color? && input[..n] == t.value.params + [0x6D]
  {
  }

  lemma StepStands(line: Bytes)
    requires line != [] && Step(line).1.Some?
    ensures StandsIn(Step(line).1.value, line[..Step(line).0])
  {
    var (n, t) := Step(line);
    if t.value.Color? {
      if line[0] != ESC {
        OneRuneIntroducer(line);
      }
      CsiStands(line[2..]);
      assert line[..n] == line[..2] + line[2..][..n - 2];
    }
  }

  /** Takes the next part off the line. */
  method TakeStep(line: Bytes) returns (n: nat, t: Option<Token>)
    requires line != []
    ensures (n, t) == Step(line) && 1 <= n <= |line|
    ensures t.Some? ==> Good(t.value) && StandsIn(t.value, line[..n])
    ensures Kept(line) == EmitAny(t) + Kept(line[n..])
    ensures Colored(line) <==> IsColor(t) || Colored(line[n..])
  {
    if Step(line).1.Some? {
      StepIsGood(line);
      StepStands(line);
    }
    n, t := ScanStep(line);
  }

  method ScanStep(line: Bytes) returns (n: nat, t: Option<Token>)
    requires line != []
    ensures (n, t) == Step(line)
  {
    if line[0] == ESC {
      n, t := ScanEscape(line);
      return;
    }
    var (rune, size) := Decode(line);
    n, t := size, None;
    if rune == 0x9B {
      n, t := ScanCsi(line[size..]);
      n := n + size;
    } else if IsControlStringStart(rune) {
      n := ScanControlString(line[size..]);
      n := n + size;
    } else if rune != RUNE_ERROR || size != 1 {
      if rune == TAB || !IsControl(rune) {
        t := Some(Text(line[..size]));
      }
    }
  }

  /** Runes that start a control function. */
  predicate StartsFunction(line: Bytes)
    requires line != []
  {
    line[0] == ESC || Decode(line).0 == 0x9B || IsControlStringStart(Decode(line).0)
  }

  /** Outside control functions an invalid byte or a control character drops only itself, and
      everything else is kept. */
  lemma DropsOnlyItself(line: Bytes)
    requires line != [] && !StartsFunction(line)
    ensures var (rune, size) := Decode(line);
      && 1 <= size <= |line|
      && (DecodeFails(line) ==> size == 1 && Kept(line) == Kept(line[1..]))
      && (!DecodeFails(line) && IsControl(rune) && rune != TAB ==> Kept(line) == Kept(line[size..]))
      && (!DecodeFails(line) && (rune == TAB || !IsControl(rune)) ==> Kept(line) == line[..size] + Kept(line[size..]))
  {
  }

  method SanitizeLine(line: Bytes) returns (output: Bytes)
    ensures output == Sanitized(line)
  {
    output := [];
    var hasSgr := false;
    var rest := line;
    while |rest| > 0
      invariant Kept(line) == output + Kept(rest)
      invariant Colored(line) <==> hasSgr || Colored(rest)
      decreases |rest|
    {
      var consumed, token := TakeStep(rest);
      ConcatAssociates(output, EmitAny(token), Kept(rest[consumed..]));
      rest := rest[consumed..];
      output := output + EmitAny(token);
      hasSgr := hasSgr || IsColor(token);
    }
    if hasSgr {
      output := output + RESET;
    }
  }

  // --------------------------------------------------------------- the language

  /** Printable ASCII before safe text is safe. */
  lemma {:induction false} SafeAscii(a: Bytes, s: Bytes)
    requires Safe(s) && forall i :: 0 <= i < |a| ==> 0x20 <= a[i] < 0x7F
    ensures Safe(a + s)
    decreases |a|
  {
    if a == [] {
      assert a + s == s;
    } else {
      SafeAscii(a[1..], s);
      assert (a + s)[1..] == a[1..] + s;
    }
  }

  lemma SafeColor(params: Bytes, s: Bytes)
    requires Safe(s) && |params| <= MAX_PARAMS && ValidSgrParams(params)
    ensures Safe(Sgr(params) + s)
  {
    var tail := [0x5B] + params + [0x6D];
    SafeAscii(tail, s);
    var all := Sgr(params) + s;
    assert all[1..] == tail + s;
    assert Sgr(params) <= all;
    assert SgrAt(all);
  }

  lemma SafeText(b: Bytes, s: Bytes)
    requires Safe(s) && Good(Text(b))
    ensures Safe(b + s)
  {
    assert FullRune(b);
    DecodePrefix(b, s);
    DropOfConcat(b, s, |b|);
  }

  lemma SafeToken(t: Token, s: Bytes)
    requires Safe(s) && Good(t)
    ensures Safe(Emit(t) + s)
  {
    match t
    case Text(b) => SafeText(b, s);
    case Color(params) => SafeColor(params, s);
  }

  lemma {:induction false} KeptIsSafe(line: Bytes, s: Bytes)
    requires Safe(s)
    ensures Safe(Kept(line) + s)
    decreases |line|
  {
    if line == [] {
      assert [] + s == s;
    } else {
      var (n, t) := Step(line);
      KeptIsSafe(line[n..], s);
      var rest := Kept(line[n..]) + s;
      assert EmitAny(t) + Kept(line[n..]) + s == EmitAny(t) + rest;
      if t.Some? {
        StepIsGood(line);
        SafeToken(t.value, rest);
      } else {
        assert [] + rest == rest;
      }
    }
  }

  /** Whatever bytes come in, the output is well-formed UTF-8 without control characters other than
      tabs and colour sequences. */
  lemma OutputIsSafe(line: Bytes)
    ensures Safe(Sanitized(line)) && ValidUtf8(Sanitized(line))
  {
    if Colored(line) {
      SafeColor([0x30], []);
      assert Sgr([0x30]) + [] == RESET;
      KeptIsSafe(line, RESET);
    } else {
      KeptIsSafe(line, []);
    }
    SafeIsUtf8(Sanitized(line));
  }

  // ---------------------------------------------------- safe text is left alone

  lemma CsiOfSgr(params: Bytes, rest: Bytes)
    requires ValidSgrParams(params) && |params| <= MAX_PARAMS
    ensures CsiSequence(params + [0x6D] + rest) == (|params| + 1, Some(Color(params)))
  {
    var input := params + [0x6D] + rest;
    assert input[|params|] == 0x6D;
    assert forall k :: 0 <= k < |params| ==> input[k] == params[k] && !CsiFinal(input[k]);
    assert FinalAt(input) == |params|;
    assert input[..|params|] == params;
  }

  /** A colour sequence is recognized as such and kept as it is. */
  lemma ColorStep(params: Bytes, rest: Bytes)
    requires ValidSgrParams(params) && |params| <= MAX_PARAMS
    ensures Step(Sgr(params) + rest) == (|params| + 3, Some(Color(params)))
    ensures Safe(Sgr(params) + rest) ==> Safe(rest)
  {
    var line := Sgr(params) + rest;
    CsiOfSgr(params, rest);
    assert line[2..] == params + [0x6D] + rest;
    if Safe(line) {
      var tail := [0x5B] + params + [0x6D];
      assert line[1..] == tail + rest;
      DropSafeAscii(tail, rest);
    }
  }

  lemma {:induction false} DropSafeAscii(a: Bytes, s: Bytes)
    requires Safe(a + s) && forall i :: 0 <= i < |a| ==> 0x20 <= a[i] < 0x7F
    ensures Safe(s)
    decreases |a|
  {
    if a == [] {
      assert a + s == s;
    } else {
      assert (a + s)[1..] == a[1..] + s;
      DropSafeAscii(a[1..], s);
    }
  }

  lemma NoEscapeInRune(line: Bytes)
    requires line != [] && line[0] != ESC && Decode(line).1 <= |line|
    ensures ESC !in line[..Decode(line).1]
  {
  }

  /** The next part of safe text is kept whole, and what follows is safe again. */
  lemma SafeStep(line: Bytes) returns (n: nat, t: Token)
    requires Safe(line) && line != []
    ensures 1 <= n <= |line| && Step(line) == (n, Some(t)) && Emit(t) == line[..n] && Safe(line[n..])
    ensures t.Color? <==> ESC in line[..n]
  {
    if line[0] == ESC {
      var params: Bytes :| |params| <= MAX_PARAMS && ValidSgrParams(params) && Sgr(params) <= line;
      n, t := |params| + 3, Color(params);
      assert line == Sgr(params) + line[n..];
      ColorStep(params, line[n..]);
    } else {
      n := Decode(line).1;
      t := Text(line[..n]);
      NoEscapeInRune(line);
    }
  }

  /** Only a colour sequence brings an escape character into safe text. */
  lemma {:induction false} SafeUnchanged(line: Bytes)
    requires Safe(line)
    ensures Kept(line) == line
    ensures Colored(line) <==> ESC in line
    decreases |line|
  {
    if line != [] {
      var n, t := SafeStep(line);
      SafeUnchanged(line[n..]);
      InEitherPart(line, n, ESC);
    }
  }

  /** Safe text comes back unchanged, followed by a reset exactly when it uses colour; so text
      without control characters, or with tabs only, is returned as it is. */
  lemma SafeTextIsKept(line: Bytes)
    requires Safe(line)
    ensures Sanitized(line) == line + if ESC in line then RESET else []
    ensures ESC !in line ==> Sanitized(line) == line
  {
    SafeUnchanged(line);
  }

  /** Sanitizing twice only repeats the reset. */
  lemma SanitizeTwice(line: Bytes)
    ensures var once := Sanitized(line);
      Sanitized(once) == once + if ESC in once then RESET else []
  {
    OutputIsSafe(line);
    SafeTextIsKept(Sanitized(line));
  }
}
