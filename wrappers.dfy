/** Small failure-carrying datatypes used across the model: Option stands for
    java.util.Optional and for a nullable argument, Result and Outcome for a
    call that either returns or throws. */
module Wrappers {

  datatype Option<+T> = None | Some(value: T)

  datatype Result<+R, +E> = Success(value: R) | Failure(error: E)

  datatype Outcome<+E> = Pass | Fail(error: E)

  /** The zero- or one-element sequence holding the content of an Option. */
  function OptionToSeq<T>(o: Option<T>): (s: seq<T>)
    ensures |s| <= 1
    ensures o.Some? <==> |s| == 1
    ensures o.Some? ==> s[0] == o.value
  {
    match o
    case None => []
    case Some(v) => [v]
  }

  function Min(a: int, b: int): (m: int)
    ensures m <= a && m <= b
    ensures m == a || m == b
  {
    if a <= b then a else b
  }

  /** Taking k elements and then m more is taking k + m. */
  lemma SliceJoin<T>(q: seq<T>, k: nat, m: nat)
    requires k + m <= |q|
    ensures q[..k] + q[k..][..m] == q[..k + m]
    ensures q[k..][m..] == q[k + m..]
  {
    assert q[..k] + q[k..][..m] == q[..k + m];
  }

  lemma AppendAssoc<T>(a: seq<T>, b: seq<T>, c: seq<T>)
    ensures (a + b) + c == a + (b + c)
  {
  }
}
