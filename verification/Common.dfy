/** Small vocabulary shared by every module of the model. */
module Common {

  datatype Option<+T> = None | Some(value: T)

  /** A thrown error carries no modelled content: callers only observe that it was thrown. */
  datatype Result<+T> = Ok(value: T) | Thrown

  /** The largest integer JavaScript's Number.isSafeInteger accepts. */
  const MAX_SAFE_INTEGER := 9007199254740991

  predicate SafeInteger(n: int) { -MAX_SAFE_INTEGER <= n <= MAX_SAFE_INTEGER }

  /** A number-valued field of unknown content; Null also stands for a missing field. */
  datatype Field = Null | NotAnInteger | Integer(n: int)

  function Min(a: int, b: int): int { if a < b then a else b }

  function Max(a: int, b: int): int { if a > b then a else b }

  function Pow2(n: nat): (p: nat)
    ensures p >= 1
  {
    if n == 0 then 1 else 2 * Pow2(n - 1)
  }

  /** Bigint remainder, which takes the sign of the dividend. */
  function Rem(a: int, b: int): int
    requires b > 0
  {
    if a >= 0 then a % b else -((-a) % b)
  }

  /** Index of the first element satisfying p, or |xs| when there is none. */
  function First<T>(xs: seq<T>, p: T -> bool): (i: nat)
    ensures i <= |xs|
    ensures i < |xs| ==> p(xs[i])
    ensures forall j :: 0 <= j < i ==> !p(xs[j])
  {
    if xs == [] then 0
    else if p(xs[0]) then 0
    else
      var i := First(xs[1..], p);
      assert forall j :: 1 <= j < i + 1 ==> xs[j] == xs[1..][j - 1];
      i + 1
  }

  /** Deleting one entry of an insertion-ordered collection keeps the others in order. */
  function RemoveAt<T>(xs: seq<T>, i: nat): (r: seq<T>)
    requires i < |xs|
    ensures |r| == |xs| - 1
    ensures forall j :: 0 <= j < |r| ==> r[j] == xs[if j < i then j else j + 1]
    ensures forall j :: 0 <= j < |xs| && j != i ==> r[if j < i then j else j - 1] == xs[j]
  {
    xs[..i] + xs[i + 1..]
  }
}
