/** Types shared by the models: bytes, optional values and the Go integer widths. */
module Common {

  type Byte = b: int | 0 <= b < 256
  type Bytes = seq<Byte>

  const MAX_INT64: int := 0x7fff_ffff_ffff_ffff

  /** Go's int64. Arithmetic on it is checked, so a model that verifies never overflows. */
  newtype int64 = x: int | -0x8000_0000_0000_0000 <= x <= 0x7fff_ffff_ffff_ffff

  datatype Option<+T> = None | Some(value: T)

  datatype Result<+T, +E> = Ok(value: T) | Err(error: E)

  /** A part of a finite set has no more elements than the whole. */
  lemma SubsetCard<T>(a: set<T>, b: set<T>)
    requires a <= b
    ensures |a| <= |b|
    ensures |a| == |b| ==> a == b
  {
    assert b == a + (b - a);
  }

  lemma PickAny<T>(s: set<T>) returns (x: T)
    requires s != {}
    ensures x in s
  {
    x :| x in s;
  }

  lemma {:induction false} MaxExists(s: set<int>)
    requires s != {}
    ensures exists m :: m in s && forall y :: y in s ==> y <= m
    decreases |s|
  {
    var x := PickAny(s);
    var rest := s - {x};
    if |rest| == 0 {
      forall y | y in s ensures y <= x {
        assert y !in rest;
      }
    } else {
      MaxExists(rest);
      var m: int :| m in rest && forall y :: y in rest ==> y <= m;
      var top := if m < x then x else m;
      assert forall y :: y in s ==> y == x || y in rest;
      assert top in s && forall y :: y in s ==> y <= top;
    }
  }

  /** The largest element of a non-empty finite set. */
  function MaxOf(s: set<int>): (m: int)
    requires s != {}
    ensures m in s
    ensures forall y :: y in s ==> y <= m
  {
    MaxExists(s);
    var m :| m in s && forall y :: y in s ==> y <= m;
    m
  }

  /** The smallest element of a non-empty finite set. */
  function MinOf(s: set<int>): (m: int)
    requires s != {}
    ensures m in s
    ensures forall y :: y in s ==> m <= y
  {
    var negated := set x | x in s :: -x;
    assert forall y :: y in s ==> -y in negated;
    -MaxOf(negated)
  }

  lemma ConcatAssociates<T>(a: seq<T>, b: seq<T>, c: seq<T>)
    ensures a + (b + c) == a + b + c
  {
  }

  lemma InEitherPart<T>(s: seq<T>, n: nat, x: T)
    requires n <= |s|
    ensures s == s[..n] + s[n..]
    ensures x in s <==> x in s[..n] || x in s[n..]
  {
  }

  lemma DropOfConcat<T>(a: seq<T>, b: seq<T>, k: nat)
    requires k <= |a|
    ensures (a + b)[k..] == a[k..] + b
  {
  }
}
