/**
 * Small shared vocabulary: optional values, results with an error side,
 * the HTTP error that the web layer raises, and the last index of a value
 * in a sequence.
 */
module Base {

  datatype Option<+T> = None | Some(value: T)

  datatype Result<+T, +E> = Success(value: T) | Failure(error: E)

  /** An HTTPException: its status code and its `detail` text. */
  datatype HttpError = HttpError(status: int, detail: string)

  /** Index of the last occurrence of `x` in `s`, if any. */
  function LastIndex<T(==)>(s: seq<T>, x: T): (r: Option<nat>)
    ensures r.Some? ==> r.value < |s| && s[r.value] == x && x !in s[r.value + 1..]
    ensures r.None? <==> x !in s
  {
    if s == [] then None
    else if s[|s| - 1] == x then Some(|s| - 1)
    else
      var init := s[..|s| - 1];
      var r := LastIndex(init, x);
      assert s == init + [s[|s| - 1]];
      r
  }
  /** The only occurrence at or after `i` is the last one. */
  lemma LastIndexAt<T>(s: seq<T>, x: T, i: nat)
    requires i < |s| && s[i] == x && x !in s[i + 1..]
    ensures LastIndex(s, x) == Some(i)
  {
  }

  lemma LastIndexSnoc<T>(s: seq<T>, y: T, x: T)
    ensures LastIndex(s + [y], x) == if y == x then Some(|s|) else LastIndex(s, x)
  {
    assert (s + [y])[..|s|] == s;
  }
}
