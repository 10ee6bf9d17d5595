/** Values shared by the controller's modules: bytes, the exceptions the
    controller can raise, and Python-style slicing. */
module Common {

  type byte = x: int | 0 <= x < 256

  type Bytes = seq<byte>

  datatype Option<+T> = None | Some(value: T)

  /** The exceptions of the controller that the model keeps apart. */
  datatype Error =
    | Base64Error   // the stored record's body is not valid base64
    | ConnectError  // the directory could not be reached or bound
    | TypeError     // `ord` applied to a string that is not one character long

  /** A value, or the exception that was raised instead of producing it. */
  datatype Result<+T> = Ok(value: T) | Raised(error: Error)

  function Min(a: int, b: int): int
  {
    if a <= b then a else b
  }

  predicate StartsWith<T(==)>(s: seq<T>, prefix: seq<T>)
  {
    |prefix| <= |s| && s[..|prefix|] == prefix
  }

  /** The pair `(s[:n], s[n:])` of Python slicing with a non-negative bound:
      the two halves put back together give `s`, and the first one is cut
      at `n` or at the end of `s`, whichever comes first. */
  function SplitAt<T>(s: seq<T>, n: nat): (r: (seq<T>, seq<T>))
    ensures r.0 + r.1 == s
    ensures |r.0| == Min(n, |s|)
  {
    var k := Min(n, |s|);
    (s[..k], s[k..])
  }
}
