/** The canonical server paths of the file manager, as byte strings. */
module Paths {
  import opened Common
  import opened Utf8

  const SLASH: Byte := 0x2F
  const DOT: Byte := 0x2E
  const BACKSLASH: Byte := 0x5C
  const MAX_PATH := 4096
  const MAX_NAME := 255

  /** One component between slashes. */
  datatype Name = Name(text: Bytes)

  // ------------------------------------------------------------ strings and path

  /** strings.Split at slashes. */
  function Split(s: Bytes): (r: seq<Name>)
    ensures |r| >= 1
  {
    if s == [] then [Name([])]
    else
      var rest := Split(s[1..]);
      if s[0] == SLASH then [Name([])] + rest else [Name([s[0]] + rest[0].text)] + rest[1..]
  }

  /** The components with slashes between them. */
  function Join(names: seq<Name>): Bytes {
    if names == [] then []
    else if |names| == 1 then names[0].text
    else names[0].text + ([SLASH] + Join(names[1..]))
  }

  function TrimLeft(s: Bytes): Bytes {
    if s != [] && s[0] == SLASH then TrimLeft(s[1..]) else s
  }

  function TrimRight(s: Bytes): Bytes {
    if s != [] && s[|s| - 1] == SLASH then TrimRight(s[..|s| - 1]) else s
  }

  predicate IsEmptyOrDot(n: Name) {
    n.text == [] || n.text == [DOT]
  }

  predicate IsParent(n: Name) {
    n.text == [DOT, DOT]
  }

  /** What remains of the components when empty ones, "." and ".." are resolved. */
  function Resolve(rooted: bool, names: seq<Name>): seq<Name> {
    if names == [] then []
    else
      var out, n := Resolve(rooted, names[..|names| - 1]), names[|names| - 1];
      if IsEmptyOrDot(n) then out
      else if !IsParent(n) then out + [n]
      else if out != [] && !IsParent(out[|out| - 1]) then out[..|out| - 1]
      else if rooted then out
      else out + [n]
  }

  /** path.Clean. */
  function Clean(p: Bytes): Bytes {
    if p == [] then [DOT]
    else
      var rooted := p[0] == SLASH;
      var out := Resolve(rooted, Split(p));
      if rooted then [SLASH] + Join(out)
      else if out == [] then [DOT]
      else Join(out)
  }

  /** path.Join of two elements. */
  function PathJoin(a: Bytes, b: Bytes): Bytes {
    if a == [] then (if b == [] then [] else Clean(b)) else Clean(a + ([SLASH] + b))
  }

  // ---------------------------------------------------------------- the operations

  predicate ValidText(value: Bytes) {
    value != [] && |value| <= MAX_PATH && ValidUtf8(value) && 0 !in value
  }

  predicate ValidComponents(value: Bytes) {
    forall n :: n in Split(TrimLeft(TrimRight(value))) && n.text != [] ==>
      n.text != [DOT] && !IsParent(n) && |n.text| <= MAX_NAME
  }

  predicate HasParent(value: Bytes) {
    exists n :: n in Split(value) && IsParent(n)
  }

  datatype Invalid = Invalid

  function NormalizeRoot(value: Bytes): Result<Bytes, Invalid> {
    if value == [] then Ok([SLASH])
    else if !ValidText(value) then Err(Invalid)
    else if BACKSLASH in value || HasParent(value) then Err(Invalid)
    else
      var cleaned := Clean([SLASH] + TrimLeft(value));
      var path := if cleaned == [DOT] then [SLASH] else cleaned;
      if path == [] || path[0] != SLASH || |path| > MAX_PATH then Err(Invalid)
      else if !ValidComponents(path) then Err(Invalid)
      else Ok(path)
  }

  function JoinPath(root: Bytes, value: Bytes): Result<Bytes, Invalid> {
    if value == [] || value[0] == SLASH || !ValidText(value) then Err(Invalid)
    else if BACKSLASH in value || HasParent(value) then Err(Invalid)
    else
      var relative := Clean(value);
      if relative == [DOT] || relative == [SLASH] || [DOT, DOT, SLASH] <= relative then Err(Invalid)
      else if !ValidComponents(relative) then Err(Invalid)
      else
        var joined := PathJoin(root, relative);
        if joined == root || joined == [SLASH] || |joined| > MAX_PATH then Err(Invalid)
        else if root != [SLASH] && !(root + [SLASH] <= joined) then Err(Invalid)
        else Ok(joined)
  }

  function TrimPrefix(s: Bytes, prefix: Bytes): Bytes {
    if prefix <= s then s[|prefix|..] else s
  }

  function RelativePath(root: Bytes, full: Bytes): Bytes {
    if root == [SLASH] then TrimPrefix(full, [SLASH])
    else TrimPrefix(TrimPrefix(full, root), [SLASH])
  }

  // ------------------------------------------------------------- split and join

  predicate Slashless(names: seq<Name>) {
    forall i :: 0 <= i < |names| ==> SLASH !in names[i].text
  }

  lemma {:induction false} SplitSlashless(s: Bytes)
    ensures Slashless(Split(s))
  {
    if s != [] {
      SplitSlashless(s[1..]);
    }
  }

  lemma {:induction false} SplitOne(s: Bytes)
    requires SLASH !in s
    ensures Split(s) == [Name(s)]
  {
    if s != [] {
      SplitOne(s[1..]);
      assert [s[0]] + s[1..] == s;
    }
  }

  lemma {:induction false} SplitConcat(a: Bytes, b: Bytes)
    ensures Split(a + ([SLASH] + b)) == Split(a) + Split(b)
  {
    var all := a + ([SLASH] + b);
    if a == [] {
      assert all == [SLASH] + b;
      assert all[1..] == b;
    } else {
      assert all[1..] == a[1..] + ([SLASH] + b);
      SplitConcat(a[1..], b);
    }
  }

  lemma {:induction false} SplitJoin(names: seq<Name>)
    requires names != [] && Slashless(names)
    ensures Split(Join(names)) == names
  {
    SplitOne(names[0].text);
    if |names| > 1 {
      SplitJoin(names[1..]);
      SplitConcat(names[0].text, Join(names[1..]));
    }
  }

  // ----------------------------------------------------------------- components

  /** The components that count when there is no "..". */
  function Keep(names: seq<Name>): seq<Name> {
    if names == [] then []
    else
      var out, n := Keep(names[..|names| - 1]), names[|names| - 1];
      if IsEmptyOrDot(n) then out else out + [n]
  }

  function Components(p: Bytes): seq<Name> {
    Keep(Split(p))
  }

  function Absolute(names: seq<Name>): Bytes {
    [SLASH] + Join(names)
  }

  predicate NoParent(names: seq<Name>) {
    forall i :: 0 <= i < |names| ==> !IsParent(names[i])
  }

  /** A component that can stand in a canonical path. */
  predicate Plain(n: Name) {
    !IsEmptyOrDot(n) && !IsParent(n) && SLASH !in n.text
  }

  predicate AllPlain(names: seq<Name>) {
    forall i :: 0 <= i < |names| ==> Plain(names[i])
  }

  lemma {:induction false} KeepConcat(a: seq<Name>, b: seq<Name>)
    ensures Keep(a + b) == Keep(a) + Keep(b)
    decreases |b|
  {
    if b == [] {
      assert a + b == a;
    } else {
      KeepConcat(a, b[..|b| - 1]);
      assert (a + b)[..|a + b| - 1] == a + b[..|b| - 1];
    }
  }

  lemma {:induction false} ResolveKeeps(rooted: bool, names: seq<Name>)
    requires NoParent(names)
    ensures Resolve(rooted, names) == Keep(names)
  {
    if names != [] {
      ResolveKeeps(rooted, names[..|names| - 1]);
    }
  }

  lemma {:induction false} KeepSome(names: seq<Name>)
    ensures forall n :: n in Keep(names) ==> n in names && !IsEmptyOrDot(n)
  {
    if names != [] {
      KeepSome(names[..|names| - 1]);
    }
  }

  lemma {:induction false} KeepPlain(names: seq<Name>)
    requires AllPlain(names)
    ensures Keep(names) == names
  {
    if names != [] {
      KeepPlain(names[..|names| - 1]);
    }
  }

  lemma ComponentsOfSlash(p: Bytes)
    ensures Components([SLASH] + p) == Components(p)
    ensures HasParent([SLASH] + p) <==> HasParent(p)
  {
    var all := [SLASH] + p;
    assert all[1..] == p;
    assert Split(all) == [Name([])] + Split(p);
    KeepConcat([Name([])], Split(p));
    assert Keep([Name([])]) == [];
  }

  lemma {:induction false} ComponentsOfTrimmed(p: Bytes)
    ensures Components(TrimLeft(p)) == Components(p)
    ensures HasParent(TrimLeft(p)) <==> HasParent(p)
  {
    if p != [] && p[0] == SLASH {
      ComponentsOfTrimmed(p[1..]);
      ComponentsOfSlash(p[1..]);
      assert p == [SLASH] + p[1..];
    }
  }

  lemma ComponentsOfJoin(names: seq<Name>)
    requires AllPlain(names)
    ensures Components(Join(names)) == names && !HasParent(Join(names))
    ensures names != [] ==> Split(Join(names)) == names
  {
    if names == [] {
      assert Keep(Split([])) == [];
    } else {
      SplitJoin(names);
      KeepPlain(names);
    }
  }

  lemma ComponentsOfAbsolute(names: seq<Name>)
    requires AllPlain(names)
    ensures Components(Absolute(names)) == names && !HasParent(Absolute(names))
  {
    ComponentsOfJoin(names);
    ComponentsOfSlash(Join(names));
  }

  /** Without ".." cleaning keeps exactly the components that count. */
  lemma CleanKeeps(p: Bytes)
    requires p != [] && !HasParent(p)
    ensures p[0] == SLASH ==> Clean(p) == Absolute(Components(p))
    ensures p[0] != SLASH ==> Clean(p) == if Components(p) == [] then [DOT] else Join(Components(p))
  {
    assert NoParent(Split(p)) by {
      forall i | 0 <= i < |Split(p)| ensures !IsParent(Split(p)[i]) {
        assert Split(p)[i] in Split(p);
      }
    }
    ResolveKeeps(p[0] == SLASH, Split(p));
  }

  lemma {:induction false} JoinConcat(a: seq<Name>, b: seq<Name>)
    requires b != []
    ensures Join(a + b) == if a == [] then Join(b) else Join(a) + ([SLASH] + Join(b))
  {
    if a == [] {
      assert a + b == b;
    } else {
      var all := a + b;
      assert all[1..] == a[1..] + b;
      JoinConcat(a[1..], b);
      if |a| > 1 {
        ConcatAssociates(a[0].text, [SLASH] + Join(a[1..]), [SLASH] + Join(b));
        ConcatAssociates([SLASH], Join(a[1..]), [SLASH] + Join(b));
      }
    }
  }

  // ----------------------------------------------------------------------- text

  /** Well-formed text without NUL and backslash. */
  predicate Clear(s: Bytes) {
    ValidUtf8(s) && 0 !in s && BACKSLASH !in s
  }

  predicate AllClear(names: seq<Name>) {
    forall i :: 0 <= i < |names| ==> Clear(names[i].text)
  }

  lemma RuneEndsBefore(a: Bytes, b: Bytes)
    requires a != [] && !DecodeFails(a + ([SLASH] + b))
    ensures FullRune(a) && 1 <= Decode(a).1 <= |a| && Decode(a) == Decode(a + ([SLASH] + b))
  {
    var all := a + ([SLASH] + b);
    assert all[|a|] == SLASH;
    assert forall i :: 0 <= i < |a| ==> all[i] == a[i];
  }

  lemma {:induction false} CutAtSlash(a: Bytes, b: Bytes)
    requires ValidUtf8(a + ([SLASH] + b))
    ensures ValidUtf8(a) && ValidUtf8(b)
    decreases |a|
  {
    var all := a + ([SLASH] + b);
    ValidSplits(all);
    if a == [] {
      assert all == [SLASH] + b;
      assert all[1..] == b;
    } else {
      RuneEndsBefore(a, b);
      var k := Decode(a).1;
      DropOfConcat(a, [SLASH] + b, k);
      CutAtSlash(a[k..], b);
      ValidSplits(a);
    }
  }

  lemma FirstSlash(s: Bytes) returns (a: Bytes, b: Bytes)
    requires SLASH in s
    ensures s == a + ([SLASH] + b) && SLASH !in a
  {
    var i := 0;
    while s[i] != SLASH
      invariant 0 <= i < |s| && SLASH !in s[..i] && SLASH in s[i..]
      decreases |s| - i
    {
      i := i + 1;
    }
    a, b := s[..i], s[i + 1..];
  }

  lemma {:induction false} SplitClear(s: Bytes)
    requires Clear(s)
    ensures AllClear(Split(s))
    decreases |s|
  {
    if SLASH !in s {
      SplitOne(s);
    } else {
      var a, b := FirstSlash(s);
      CutAtSlash(a, b);
      assert forall x :: x in a || x in b ==> x in s;
      SplitConcat(a, b);
      SplitOne(a);
      SplitClear(b);
    }
  }

  lemma ClearConcat(a: Bytes, b: Bytes)
    requires Clear(a) && Clear(b)
    ensures Clear(a + b)
  {
    ValidConcat(a, b);
  }

  lemma ClearSlash(a: Bytes)
    requires Clear(a)
    ensures Clear([SLASH] + a)
  {
    assert Utf8Char([SLASH][..1]);
    assert [SLASH][1..] == [];
    assert ValidUtf8([SLASH]);
    ClearConcat([SLASH], a);
  }

  lemma {:induction false} JoinClear(names: seq<Name>)
    requires AllClear(names)
    ensures Clear(Join(names))
  {
    if |names| > 1 {
      JoinClear(names[1..]);
      ClearSlash(Join(names[1..]));
      ClearConcat(names[0].text, [SLASH] + Join(names[1..]));
    }
  }

  /** The components of admissible text can stand in a canonical path. */
  lemma ComponentsFine(value: Bytes)
    requires Clear(value) && !HasParent(value)
    ensures AllPlain(Components(value)) && AllClear(Components(value))
  {
    SplitClear(value);
    SplitSlashless(value);
    KeepSome(Split(value));
    var names := Components(value);
    forall i | 0 <= i < |names| ensures Plain(names[i]) && Clear(names[i].text) {
      assert names[i] in names;
      assert names[i] in Split(value);
    }
  }

  predicate ShortNames(names: seq<Name>) {
    forall i :: 0 <= i < |names| ==> |names[i].text| <= MAX_NAME
  }

  /** A joined list of components neither starts nor ends with a slash. */
  lemma {:induction false} JoinEnds(names: seq<Name>)
    requires AllPlain(names) && names != []
    ensures Join(names) != [] && Join(names)[0] != SLASH && Join(names)[|Join(names)| - 1] != SLASH
  {
    assert Plain(names[0]);
    assert names[0].text[0] in names[0].text;
    if |names| == 1 {
      assert names[0].text[|names[0].text| - 1] in names[0].text;
    } else {
      JoinEnds(names[1..]);
    }
  }

  /** Trimming a joined list, with or without a leading slash, gives the list back. */
  lemma TrimJoined(p: Bytes)
    requires p != [] && p[0] != SLASH && p[|p| - 1] != SLASH
    ensures TrimLeft(TrimRight(p)) == p
    ensures TrimLeft(TrimRight([SLASH] + p)) == p
  {
    var q := [SLASH] + p;
    assert q[|q| - 1] == p[|p| - 1];
    assert TrimRight(q) == q;
    assert q[1..] == p;
    assert TrimLeft(q) == TrimLeft(p) == p;
  }

  lemma ShortComponents(names: seq<Name>)
    requires AllPlain(names)
    ensures ValidComponents(Absolute(names)) <==> ShortNames(names)
    ensures names != [] ==> (ValidComponents(Join(names)) <==> ShortNames(names))
  {
    if names == [] {
      assert Absolute(names) == [SLASH];
      assert TrimRight([SLASH]) == TrimRight([SLASH][..0]) == [];
    } else {
      JoinEnds(names);
      TrimJoined(Join(names));
      ComponentsOfJoin(names);
      SplitShort(names);
    }
  }

  lemma SplitShort(names: seq<Name>)
    requires AllPlain(names)
    ensures ShortNames(names) <==> forall n :: n in names && n.text != [] ==>
      n.text != [DOT] && !IsParent(n) && |n.text| <= MAX_NAME
  {
    if forall n :: n in names && n.text != [] ==> |n.text| <= MAX_NAME {
      forall i | 0 <= i < |names| ensures |names[i].text| <= MAX_NAME {
        assert names[i] in names;
      }
    }
  }

  // ------------------------------------------------------------ root normalization

  /** What a root has to be. */
  predicate GoodRoot(value: Bytes) {
    value == [] || (
      && ValidText(value) && BACKSLASH !in value && !HasParent(value)
      && |Absolute(Components(value))| <= MAX_PATH && ShortNames(Components(value)))
  }

  lemma EmptyPath()
    ensures Components([]) == [] && Absolute([]) == [SLASH]
  {
    assert Split([])[..0] == [];
  }

  /** A root is accepted exactly when it is good, and then becomes the slash-prefixed list of its components. */
  lemma NormalizeExact(value: Bytes)
    ensures NormalizeRoot(value) == if GoodRoot(value) then Ok(Absolute(Components(value))) else Err(Invalid)
  {
    if value == [] {
      EmptyPath();
    } else if ValidText(value) && BACKSLASH !in value && !HasParent(value) {
      var rooted := [SLASH] + TrimLeft(value);
      ComponentsOfTrimmed(value);
      ComponentsOfSlash(TrimLeft(value));
      CleanKeeps(rooted);
      ComponentsFine(value);
      ShortComponents(Components(value));
    }
  }

  ghost predicate Canonical(p: Bytes) {
    NormalizeRoot(p) == Ok(p)
  }

  lemma CanonicalFromNames(names: seq<Name>)
    requires AllPlain(names) && AllClear(names) && ShortNames(names) && |Absolute(names)| <= MAX_PATH
    ensures Canonical(Absolute(names)) && Components(Absolute(names)) == names
  {
    ComponentsOfAbsolute(names);
    JoinClear(names);
    ClearSlash(Join(names));
    NormalizeExact(Absolute(names));
  }

  /** Normalizing twice is normalizing once. */
  lemma NormalizeIdempotent(value: Bytes)
    requires NormalizeRoot(value).Ok?
    ensures Canonical(NormalizeRoot(value).value)
  {
    NormalizeExact(value);
    if value == [] {
      EmptyPath();
      CanonicalFromNames([]);
    } else {
      ComponentsFine(value);
      CanonicalFromNames(Components(value));
    }
  }

  lemma CanonicalRoot(root: Bytes)
    requires Canonical(root)
    ensures root == Absolute(Components(root))
    ensures AllPlain(Components(root)) && AllClear(Components(root)) && ShortNames(Components(root))
  {
    NormalizeExact(root);
    ComponentsFine(root);
  }

  // ------------------------------------------------------------------------ joins

  /** What a relative path has to be. */
  predicate GoodRelative(value: Bytes) {
    && ValidText(value) && value[0] != SLASH && BACKSLASH !in value && !HasParent(value)
    && Components(value) != [] && ShortNames(Components(value))
  }

  /** A joined list of components is none of the values a join turns away. */
  lemma JoinedIsProper(names: seq<Name>)
    requires AllPlain(names) && names != []
    ensures var p := Join(names); p != [DOT] && p != [SLASH] && !([DOT, DOT, SLASH] <= p)
  {
    var p := Join(names);
    ComponentsOfJoin(names);
    assert Plain(names[0]);
    if p == [DOT] {
      SplitOne(p);
    } else if [DOT, DOT, SLASH] <= p {
      SplitOne([DOT, DOT]);
      assert p == [DOT, DOT] + ([SLASH] + p[3..]);
      SplitConcat([DOT, DOT], p[3..]);
    }
    JoinEnds(names);
  }

  /** Joining appends the components. */
  lemma PathJoinAppends(root: seq<Name>, names: seq<Name>)
    requires AllPlain(root) && AllPlain(names)
    ensures PathJoin(Absolute(root), Join(names)) == Absolute(root + names)
  {
    var p := Absolute(root) + ([SLASH] + Join(names));
    SplitConcat(Absolute(root), Join(names));
    KeepConcat(Split(Absolute(root)), Split(Join(names)));
    ComponentsOfAbsolute(root);
    ComponentsOfJoin(names);
    assert !HasParent(p);
    CleanKeeps(p);
  }

  /** Appended components lie strictly below, on a component boundary. */
  lemma BelowRoot(root: seq<Name>, names: seq<Name>)
    requires AllPlain(root) && AllPlain(names) && names != []
    ensures Absolute(root + names) == (if root == [] then [SLASH] else Absolute(root) + [SLASH]) + Join(names)
    ensures Absolute(root + names) != Absolute(root) && Absolute(root + names) != [SLASH]
    ensures root == [] <==> Absolute(root) == [SLASH]
  {
    JoinConcat(root, names);
    JoinEnds(names);
    ConcatAssociates([SLASH], Join(root), [SLASH] + Join(names));
    ConcatAssociates(Absolute(root), [SLASH], Join(names));
    if root != [] {
      JoinEnds(root);
    }
  }

  /** Under a canonical root a join succeeds exactly when the value is good and the result is not
      too long, and then the components of the value follow those of the root. */
  lemma JoinExact(root: Bytes, value: Bytes)
    requires Canonical(root)
    ensures var joined := Absolute(Components(root) + Components(value));
      JoinPath(root, value) == if GoodRelative(value) && |joined| <= MAX_PATH then Ok(joined) else Err(Invalid)
  {
    if ValidText(value) && value[0] != SLASH && BACKSLASH !in value && !HasParent(value) {
      var names := Components(value);
      ComponentsFine(value);
      CleanKeeps(value);
      if names != [] {
        CanonicalRoot(root);
        JoinedIsProper(names);
        ShortComponents(names);
        PathJoinAppends(Components(root), names);
        BelowRoot(Components(root), names);
      }
    }
  }

  /** A joined path is canonical, strictly below the root on a component boundary, and its path
      relative to the root is the cleaned value. */
  lemma JoinedPath(root: Bytes, value: Bytes)
    requires Canonical(root)
    ensures JoinPath(root, value).Ok? ==> var joined := JoinPath(root, value).value;
      && Canonical(joined)
      && Components(joined) == Components(root) + Components(value) && Components(value) != []
      && joined == (if root == [SLASH] then root else root + [SLASH]) + Clean(value)
      && RelativePath(root, joined) == Clean(value)
  {
    JoinExact(root, value);
    if JoinPath(root, value).Ok? {
      CanonicalRoot(root);
      ComponentsFine(value);
      CleanKeeps(value);
      var names := Components(value);
      CanonicalFromNames(Components(root) + names);
      BelowRoot(Components(root), names);
      RelativeOfJoined(root, Join(names));
    }
  }

  lemma RelativeOfJoined(root: Bytes, relative: Bytes)
    ensures RelativePath(root, (if root == [SLASH] then root else root + [SLASH]) + relative) == relative
  {
    if root == [SLASH] {
      assert ([SLASH] + relative)[1..] == relative;
    } else {
      var full := root + [SLASH] + relative;
      assert full[|root|..] == [SLASH] + relative;
      assert ([SLASH] + relative)[1..] == relative;
    }
  }

  /** Two joins name the same file exactly when their cleaned values are equal. */
  lemma JoinsCollide(root: Bytes, v: Bytes, w: Bytes)
    requires Canonical(root)
    ensures JoinPath(root, v).Ok? && JoinPath(root, w).Ok? ==>
      (JoinPath(root, v) == JoinPath(root, w) <==> Clean(v) == Clean(w))
  {
    JoinedPath(root, v);
    JoinedPath(root, w);
  }
}
